/** What every run of the authorizer keeps, from an empty ledger on. */
module SealedIpcRuns {
  import opened Wrappers
  import opened SealedIpc
  import CanonicalJson

  /** The ledger after the first `n` calls. */
  function After(d: Digests, key: Key, calls: seq<Call>, n: nat): LedgerState
    requires n <= |calls|
  {
    if n == 0 then EMPTY_LEDGER else NextState(d, key, After(d, key, calls, n - 1), calls[n - 1])
  }

  /** The outcome of call `n`. */
  function OutcomeAt(d: Digests, key: Key, calls: seq<Call>, n: nat): Outcome
    requires n < |calls|
  {
    OutcomeOf(d, key, After(d, key, calls, n), calls[n])
  }

  /** Serves the calls with one authorizer and a new ledger; a short signing key is refused at the start. */
  method ServeAll(d: Digests, key: Key, calls: seq<Call>)
    returns (served: Result<seq<Outcome>, IpcError>, ledger: AppendOnlyReplayLedger)
    ensures served.Failure? <==> |key| < 32
    ensures served.Failure? ==> served.error == SigningKeyInvalid && ledger.State() == EMPTY_LEDGER
    ensures served.Success? ==>
      && |served.value| == |calls|
      && (forall i :: 0 <= i < |calls| ==> served.value[i] == OutcomeAt(d, key, calls, i))
      && ledger.State() == After(d, key, calls, |calls|)
  {
    ledger := new AppendOnlyReplayLedger();
    var created := NewAuthorizer(d, key, ledger);
    if created.Failure? {
      return Failure(created.error), ledger;
    }
    var authorizer, outcomes := created.value, [];
    for n := 0 to |calls|
      invariant authorizer.d == d && authorizer.key == key && authorizer.ledger == ledger && fresh(ledger)
      invariant |outcomes| == n && forall i :: 0 <= i < n ==> outcomes[i] == OutcomeAt(d, key, calls, i)
      invariant ledger.State() == After(d, key, calls, n)
    {
      var outcome := authorizer.Authorize(calls[n]);
      outcomes := outcomes + [outcome];
    }
    return Success(outcomes), ledger;
  }

  predicate AcceptedAt(d: Digests, key: Key, calls: seq<Call>, n: nat)
    requires n < |calls|
  {
    calls[n].message.Typed? && OutcomeAt(d, key, calls, n).Accepted?
  }

  /** Call `n` is accepted and is not a duplicate. */
  predicate FreshAt(d: Digests, key: Key, calls: seq<Call>, n: nat)
    requires n < |calls|
  {
    && calls[n].message.Typed?
    && VerdictOf(d, key, After(d, key, calls, n), calls[n].message.request, calls[n].principal, calls[n].tick,
                 calls[n].resultCommitment) == Fresh
  }

  /** Call `n` left a denial or an acceptance in the ledger. */
  predicate RecordedAt(d: Digests, key: Key, calls: seq<Call>, n: nat)
    requires n < |calls|
  {
    calls[n].message.Typed? && OutcomeAt(d, key, calls, n) != TypeErrorRaised
  }

  /** Call `n` is answered with a receipt that is not flagged as a duplicate. */
  predicate FirstAcceptedAt(d: Digests, key: Key, calls: seq<Call>, n: nat)
    requires n < |calls|
  {
    AcceptedAt(d, key, calls, n) && !OutcomeAt(d, key, calls, n).receipt.duplicate
  }

  /** The flag of the receipt tells the verdict. */
  lemma FreshIffNotDuplicate(d: Digests, key: Key, calls: seq<Call>, n: nat)
    requires n < |calls|
    ensures FreshAt(d, key, calls, n) <==> FirstAcceptedAt(d, key, calls, n)
  {
  }

  // ---------- nothing is forgotten ----------

  lemma {:induction false} NoncesAreKept(d: Digests, key: Key, calls: seq<Call>, i: nat, n: nat)
    requires i < n <= |calls| && RecordedAt(d, key, calls, i)
    ensures d.text(calls[i].message.request.nonce) in After(d, key, calls, n).nonceHashes
  {
    if i < n - 1 {
      NoncesAreKept(d, key, calls, i, n - 1);
    }
  }

  /** The stored receipt of an idempotency key never changes. */
  lemma {:induction false} FirstReceiptIsKept(d: Digests, key: Key, calls: seq<Call>, i: nat, n: nat)
    requires i < n <= |calls| && FreshAt(d, key, calls, i)
    ensures
      var r, kept := calls[i].message.request, After(d, key, calls, n).idempotency;
      && d.text(r.idempotencyKey) in kept
      && kept[d.text(r.idempotencyKey)] == Prior(d.request(r), ReceiptFor(d, r, calls[i].resultCommitment))
  {
    if i < n - 1 {
      FirstReceiptIsKept(d, key, calls, i, n - 1);
    }
  }

  /** Every stored receipt was issued by an earlier acceptance. */
  lemma {:induction false} StoredReceiptWasIssued(d: Digests, key: Key, calls: seq<Call>, n: nat, idem: string)
    returns (i: nat)
    requires n <= |calls| && idem in After(d, key, calls, n).idempotency
    ensures i < n && FreshAt(d, key, calls, i)
    ensures
      var r := calls[i].message.request;
      && d.text(r.idempotencyKey) == idem
      && After(d, key, calls, n).idempotency[idem] == Prior(d.request(r), ReceiptFor(d, r, calls[i].resultCommitment))
  {
    var before := After(d, key, calls, n - 1).idempotency;
    if idem in before && before[idem] == After(d, key, calls, n).idempotency[idem] {
      i := StoredReceiptWasIssued(d, key, calls, n - 1, idem);
    } else {
      i := n - 1;
    }
  }

  // ---------- replay safety ----------

  /**
    Two acceptances that are not duplicates differ in idempotency key and in nonce. The nonce differs
    even from those of the calls that were denied.
   */
  lemma NoReplay(d: Digests, key: Key, calls: seq<Call>, i: nat, j: nat)
    requires i < j < |calls| && RecordedAt(d, key, calls, i) && FirstAcceptedAt(d, key, calls, j)
    ensures calls[i].message.request.nonce != calls[j].message.request.nonce
    ensures FirstAcceptedAt(d, key, calls, i) ==>
      calls[i].message.request.idempotencyKey != calls[j].message.request.idempotencyKey
  {
    NoncesAreKept(d, key, calls, i, j);
    FreshIffNotDuplicate(d, key, calls, i);
    FreshIffNotDuplicate(d, key, calls, j);
    if FreshAt(d, key, calls, i) {
      FirstReceiptIsKept(d, key, calls, i, j);
    }
  }

  /** A duplicate receipt is the one first issued for the same request and idempotency key, up to its flag. */
  lemma DuplicateRepeatsFirst(d: Digests, key: Key, calls: seq<Call>, j: nat) returns (i: nat)
    requires j < |calls| && AcceptedAt(d, key, calls, j) && OutcomeAt(d, key, calls, j).receipt.duplicate
    ensures i < j && FirstAcceptedAt(d, key, calls, i)
    ensures OutcomeAt(d, key, calls, j) == Accepted(OutcomeAt(d, key, calls, i).receipt.(duplicate := true))
    ensures d.request(calls[i].message.request) == d.request(calls[j].message.request)
    ensures d.text(calls[i].message.request.idempotencyKey) == d.text(calls[j].message.request.idempotencyKey)
  {
    i := StoredReceiptWasIssued(d, key, calls, j, d.text(calls[j].message.request.idempotencyKey));
    FreshIffNotDuplicate(d, key, calls, i);
  }

  ghost predicate RequestsDoNotCollide(d: Digests, calls: seq<Call>) {
    forall i, j :: 0 <= i < |calls| && 0 <= j < |calls| && calls[i].message.Typed? && calls[j].message.Typed?
      && d.request(calls[i].message.request) == d.request(calls[j].message.request)
      ==> calls[i].message.request == calls[j].message.request
  }

  /**
    Whatever is accepted, as new or as a duplicate, is the request built from a capability with the right
    tag, inside its interval and for its principal. So a request whose rebuild raised is never accepted.
   */
  lemma AcceptedIsBound(d: Digests, key: Key, calls: seq<Call>, n: nat)
    requires n < |calls| && AcceptedAt(d, key, calls, n) && RequestsDoNotCollide(d, calls)
    ensures
      var r := calls[n].message.request;
      Bound(d, key, r) && !RebuildRaises(r) && InInterval(r, calls[n].tick)
      && r.capability.terms.principal == calls[n].principal
  {
    if OutcomeAt(d, key, calls, n).receipt.duplicate {
      var i := DuplicateRepeatsFirst(d, key, calls, n);
      assert calls[i].message.request == calls[n].message.request;
    }
  }

  /** The interval, the principal and the authority are checked for every acceptance, whatever the digests do. */
  lemma AcceptedInTimeForPrincipal(d: Digests, key: Key, calls: seq<Call>, n: nat)
    requires n < |calls| && AcceptedAt(d, key, calls, n)
    ensures
      var r := calls[n].message.request;
      InInterval(r, calls[n].tick) && SameAuthority(r) && r.capability.terms.principal == calls[n].principal
  {
  }

  // ---------- what is issued is accepted, once ----------

  /**
    A request built from an issued capability, used by its principal in time, has a verdict that the replay state
    alone decides.
   */
  lemma IssuedRequestVerdict(
      d: Digests, key: Key, s: LedgerState, terms: Unsigned, commitment: string, tick: int, result: string)
    requires IssueCapability(d, key, terms).Success? && Hex64(commitment) && Hex64(result)
    requires CanonicalJson.Ascii(d.tag(key, terms))
    requires terms.issuedTick <= tick < terms.expiresTick
    ensures
      var r := BuildRequest(d, IssueCapability(d, key, terms).value, commitment).value;
      var idem := d.text(terms.idempotencyKey);
      VerdictOf(d, key, s, r, terms.principal, tick, result) ==
        if idem in s.idempotency then
          if s.idempotency[idem].requestHash == d.request(r) then
            Repeat(s.idempotency[idem].receipt) else Refuse(Replayed)
        else if d.text(terms.nonce) in s.nonceHashes then Refuse(Replayed)
        else Fresh
  {
    assert CanonicalJson.Ascii(terms.principal);
  }

  /**
    Sending a freshly accepted request again, in time, gives the same receipt with the flag set, and the ledger one
    more entry.
   */
  lemma ResendingRepeats(d: Digests, key: Key, s: LedgerState, c: Call, again: Call)
    requires c.message.Typed? && again.message == c.message && again.principal == c.principal
    requires Hex64(again.resultCommitment) && InInterval(c.message.request, again.tick)
    requires VerdictOf(d, key, s, c.message.request, c.principal, c.tick, c.resultCommitment) == Fresh
    ensures
      var t := NextState(d, key, s, c);
      && OutcomeOf(d, key, t, again) == Accepted(OutcomeOf(d, key, s, c).receipt.(duplicate := true))
      && NextState(d, key, t, again).idempotency == t.idempotency
      && NextState(d, key, t, again).nonceHashes == t.nonceHashes
      && |NextState(d, key, t, again).entries| == |t.entries| + 1
  {
    var r, t := c.message.request, NextState(d, key, s, c);
    assert Bound(d, key, r) && !ComparisonRaises(d, key, r, again.principal, again.resultCommitment);
    assert VerdictOf(d, key, t, r, again.principal, again.tick, again.resultCommitment)
        == Repeat(ReceiptFor(d, r, c.resultCommitment));
  }
}
