/** The independent check of the replay ledger (`validate_replay_ledger` of sealed_ipc_validator.py). */
module SealedIpcValidator {
  import opened SealedIpc
  import opened SealedIpcRuns

  datatype LedgerError = EntryInvalid(sequence: nat) | DispositionInvalid(sequence: nat)

  predicate EntryHolds(d: Digests, entries: seq<Entry>, n: nat)
    requires n < |entries|
  {
    var e := entries[n];
    && e.payload.sequence == n + 1
    && e.payload.priorEntryHash == HeadHash(d, entries[..n])
    && e.entryHash == d.entry(e.payload)
    && !e.workerVisible
    && (e.payload.accepted <==> e.payload.code.None?)
  }

  /** The entries chain up to `n`, each hashing its own columns. */
  ghost predicate ChainHolds(d: Digests, entries: seq<Entry>, n: nat)
    requires n <= |entries|
  {
    forall i :: 0 <= i < n ==> EntryHolds(d, entries, i)
  }

  ghost predicate DistinctHashes(entries: seq<Entry>, n: nat)
    requires n <= |entries|
  {
    forall i, j :: 0 <= i < j < n ==> entries[i].entryHash != entries[j].entryHash
  }

  predicate SeenHash(entries: seq<Entry>, n: nat)
    requires n < |entries|
  {
    exists i :: 0 <= i < n && entries[i].entryHash == entries[n].entryHash
  }

  method CheckEntry(d: Digests, entries: seq<Entry>, n: nat, prior: string, seen: set<string>)
    returns (errors: seq<LedgerError>)
    requires n < |entries| && prior == HeadHash(d, entries[..n])
    requires seen == set i | 0 <= i < n :: entries[i].entryHash
    ensures errors == [] <==> EntryHolds(d, entries, n) && !SeenHash(entries, n)
  {
    errors := [];
    var e := entries[n];
    if e.payload.sequence != n + 1
      || e.payload.priorEntryHash != prior
      || e.entryHash != d.entry(e.payload)
      || e.entryHash in seen
      || e.workerVisible {
      errors := errors + [EntryInvalid(n + 1)];
    }
    if e.payload.accepted != e.payload.code.None? {
      errors := errors + [DispositionInvalid(n + 1)];
    }
  }

  /** The validator is silent iff the chain holds and no hash occurs twice. */
  method ValidateReplayLedger(d: Digests, entries: seq<Entry>) returns (errors: seq<LedgerError>)
    ensures errors == [] <==> ChainHolds(d, entries, |entries|) && DistinctHashes(entries, |entries|)
  {
    errors := [];
    var prior, seen := d.text(GENESIS), {};
    for n := 0 to |entries|
      invariant prior == HeadHash(d, entries[..n])
      invariant seen == set i | 0 <= i < n :: entries[i].entryHash
      invariant errors == [] <==> ChainHolds(d, entries, n) && DistinctHashes(entries, n)
    {
      var found := CheckEntry(d, entries, n, prior, seen);
      errors := errors + found;
      prior := entries[n].entryHash;
      seen := seen + {entries[n].entryHash};
    }
    assert entries[..|entries|] == entries;
  }

  // ---------- ledgers of runs ----------

  /** Every run leaves a chain behind. */
  lemma {:induction false} RunChainHolds(d: Digests, key: Key, calls: seq<Call>, n: nat)
    requires n <= |calls|
    ensures
      var entries := After(d, key, calls, n).entries;
      ChainHolds(d, entries, |entries|)
  {
    if n != 0 {
      RunChainHolds(d, key, calls, n - 1);
      var before, entries := After(d, key, calls, n - 1).entries, After(d, key, calls, n).entries;
      if |entries| != |before| {
        ChainGrows(d, before, entries);
      }
    }
  }

  lemma ChainGrows(d: Digests, before: seq<Entry>, entries: seq<Entry>)
    requires ChainHolds(d, before, |before|)
    requires |entries| == |before| + 1 && entries[..|before|] == before && EntryHolds(d, entries, |before|)
    ensures ChainHolds(d, entries, |entries|)
  {
    forall i | 0 <= i < |entries|
      ensures EntryHolds(d, entries, i)
    {
      if i < |before| {
        assert EntryHolds(d, before, i);
        assert entries[..i] == before[..i];
      }
    }
  }

  /** No two different payloads of these entries have the same digest. */
  ghost predicate EntriesDoNotCollide(d: Digests, entries: seq<Entry>) {
    forall i, j :: 0 <= i < |entries| &&
      0 <= j < |entries| && d.entry(entries[i].payload) == d.entry(entries[j].payload)
      ==> entries[i].payload == entries[j].payload
  }

  /** The ledger of every run passes the validator, unless two of its entries collide. */
  lemma RunPassesValidator(d: Digests, key: Key, calls: seq<Call>)
    requires EntriesDoNotCollide(d, After(d, key, calls, |calls|).entries)
    ensures
      var entries := After(d, key, calls, |calls|).entries;
      ChainHolds(d, entries, |entries|) && DistinctHashes(entries, |entries|)
  {
    RunChainHolds(d, key, calls, |calls|);
    var entries := After(d, key, calls, |calls|).entries;
    forall i, j | 0 <= i < j < |entries|
      ensures entries[i].entryHash != entries[j].entryHash
    {
      assert EntryHolds(d, entries, i) && EntryHolds(d, entries, j);
    }
  }

  ghost predicate NoCollisionBetween(d: Digests, a: seq<Entry>, b: seq<Entry>) {
    forall i, j :: 0 <= i < |a| && 0 <= j < |b| && d.entry(a[i].payload) == d.entry(b[j].payload)
      ==> a[i].payload == b[j].payload
  }

  /** The last entry hash authenticates the whole ledger. */
  lemma {:induction false} HeadAuthenticatesLedger(d: Digests, a: seq<Entry>, b: seq<Entry>)
    requires a != [] && b != [] && NoCollisionBetween(d, a, b)
    requires ChainHolds(d, a, |a|) && ChainHolds(d, b, |b|)
    requires HeadHash(d, a) == HeadHash(d, b)
    ensures a == b
  {
    var k := |a| - 1;
    assert EntryHolds(d, a, |a| - 1) && EntryHolds(d, b, |b| - 1);
    assert a[k].payload == b[|b| - 1].payload && |b| == |a|;
    assert a == a[..k] + [a[k]] && b == b[..k] + [b[k]];
    if k != 0 {
      PrefixHolds(d, a, k);
      PrefixHolds(d, b, k);
      HeadAuthenticatesLedger(d, a[..k], b[..k]);
    }
  }

  lemma PrefixHolds(d: Digests, entries: seq<Entry>, n: nat)
    requires n <= |entries| && ChainHolds(d, entries, |entries|)
    ensures ChainHolds(d, entries[..n], n)
  {
    forall i | 0 <= i < n
      ensures EntryHolds(d, entries[..n], i)
    {
      assert EntryHolds(d, entries, i);
      assert entries[..n][..i] == entries[..i];
    }
  }
}
