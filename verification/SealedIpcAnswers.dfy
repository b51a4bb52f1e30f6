/**
  What the authorizer answers and records, over the fields of requests, receipts and ledger entries and over the
  history of the calls (sealed_ipc_protocol.py).
 */
module SealedIpcAnswers {
  import opened Wrappers
  import opened SealedIpc
  import opened SealedIpcRuns
  import opened SealedIpcValidator
  import CanonicalJson

  // ---------- receipts ----------

  /**
    A receipt that is no duplicate carries the request's id, operation and matter, and the result of this very
    call.
   */
  lemma FirstReceipt(d: Digests, key: Key, calls: seq<Call>, n: nat)
    requires n < |calls| && FirstAcceptedAt(d, key, calls, n)
    ensures
      var r, receipt := calls[n].message.request, OutcomeAt(d, key, calls, n).receipt;
      && receipt.requestId == r.requestId
      && receipt.operation == r.operation
      && receipt.operatingMatterId == r.operatingMatterId
      && receipt.resultCommitment == calls[n].resultCommitment
      && receipt.receiptId == d.receiptId(
           ReceiptPayload(d.request(r), r.operation, r.operatingMatterId, calls[n].resultCommitment))
  {
  }

  /** Whatever receipt is returned carries the result of the first call that was accepted under its idempotency key. */
  lemma ReceiptCarriesFirstResult(d: Digests, key: Key, calls: seq<Call>, n: nat) returns (i: nat)
    requires n < |calls| && AcceptedAt(d, key, calls, n)
    ensures i <= n && FirstAcceptedAt(d, key, calls, i)
    ensures d.text(calls[i].message.request.idempotencyKey) == d.text(calls[n].message.request.idempotencyKey)
    ensures d.request(calls[i].message.request) == d.request(calls[n].message.request)
    ensures
      var r, receipt := calls[i].message.request, OutcomeAt(d, key, calls, n).receipt;
      && receipt.resultCommitment == calls[i].resultCommitment
      && receipt.requestId == r.requestId && receipt.operation == r.operation
      && receipt.operatingMatterId == r.operatingMatterId
      && (receipt.duplicate <==> i < n)
  {
    if OutcomeAt(d, key, calls, n).receipt.duplicate {
      i := DuplicateRepeatsFirst(d, key, calls, n);
    } else {
      i := n;
    }
    FirstReceipt(d, key, calls, i);
  }

  // ---------- what is checked ----------

  /** Sixty-four lower-case hexadecimal digits. */
  ghost predicate Commitment(s: string) {
    |s| == 64 && forall i :: 0 <= i < |s| ==> s[i] in "0123456789abcdef"
  }

  lemma CommitmentIsHex(s: string)
    ensures Commitment(s) <==> Hex64(s)
  {
    assert forall c: char :: c in "0123456789abcdef" <==> '0' <= c <= '9' || 'a' <= c <= 'f';
  }

  /** The request says what its capability allows, and the capability carries the tag of its terms. */
  ghost predicate Authentic(d: Digests, key: Key, r: Request) {
    var c, t := r.capability, r.capability.terms;
    && c.revision == "sealed-ipc-core-g0-v1" && r.revision == "sealed-ipc-core-g0-v1"
    && c.authTag == d.tag(key, t) && c.capabilityId == d.capabilityId(t, c.authTag)
    && r.operation == t.operation && r.operatingMatterId == t.operatingMatterId
    && r.nonce == t.nonce && r.idempotencyKey == t.idempotencyKey
    && r.requestId == d.requestId(RequestPayload(
         d.capability(c), t.operation, t.operatingMatterId, r.requestCommitment, t.nonce, t.idempotencyKey))
    && !r.containsPayload && !r.canonicalWriteRequested && !r.externalEffectRequested
  }

  lemma BoundMeansAuthentic(d: Digests, key: Key, r: Request)
    ensures Bound(d, key, r) <==> Authentic(d, key, r) && Commitment(r.requestCommitment)
  {
    CommitmentIsHex(r.requestCommitment);
  }

  /** Whatever is accepted is authentic, in time, and for the principal that sent it. */
  lemma AcceptedIsAuthentic(d: Digests, key: Key, calls: seq<Call>, n: nat)
    requires n < |calls| && AcceptedAt(d, key, calls, n) && RequestsDoNotCollide(d, calls)
    ensures
      var r := calls[n].message.request;
      && Authentic(d, key, r) && Commitment(r.requestCommitment)
      && r.capability.terms.issuedTick <= calls[n].tick < r.capability.terms.expiresTick
      && r.capability.terms.principal == calls[n].principal
  {
    AcceptedIsBound(d, key, calls, n);
    BoundMeansAuthentic(d, key, calls[n].message.request);
  }

  // ---------- the ledger ----------

  /** The entry that call `n` leaves behind; a call that is not recorded leaves none. */
  lemma EntryOfCall(d: Digests, key: Key, calls: seq<Call>, n: nat)
    requires n < |calls|
    ensures !RecordedAt(d, key, calls, n) ==> After(d, key, calls, n + 1) == After(d, key, calls, n)
    ensures RecordedAt(d, key, calls, n) ==>
      var before, after := After(d, key, calls, n).entries, After(d, key, calls, n + 1).entries;
      && |after| == |before| + 1 && after[..|before|] == before
      && var r, entry, e := calls[n].message.request, after[|before|], after[|before|].payload;
         && e.sequence == |before| + 1
         && e.requestHash == d.request(r) && e.capabilityHash == d.capability(r.capability)
         && e.principal == calls[n].principal
         && e.nonceCommitment == d.text(r.nonce) && e.idempotencyKeyCommitment == d.text(r.idempotencyKey)
         && (e.accepted <==> OutcomeAt(d, key, calls, n).Accepted?) && (e.code.None? <==> e.accepted)
         && e.priorEntryHash ==
           (if before == [] then d.text("ipc-ledger-genesis-v1") else before[|before| - 1].entryHash)
         && entry.entryHash == d.entry(e) && !entry.workerVisible
  {
  }

  /** A denial tells the caller the id of the request and nothing else. */
  lemma DenialIsGeneric(d: Digests, key: Key, calls: seq<Call>, n: nat)
    requires n < |calls| && OutcomeAt(d, key, calls, n).Denied?
    ensures OutcomeAt(d, key, calls, n) == Denied(
      if calls[n].message.Typed? then calls[n].message.request.requestId else calls[n].message.requestId)
  {
  }

  // ---------- history ----------

  ghost predicate NonceUsed(d: Digests, key: Key, calls: seq<Call>, n: nat, nonce: string)
    requires n <= |calls|
  {
    exists i :: 0 <= i < n && RecordedAt(d, key, calls, i) && d.text(calls[i].message.request.nonce) == d.text(nonce)
  }

  /** Call `i` was the first acceptance under the idempotency key. */
  ghost predicate KeyTakenBy(d: Digests, key: Key, calls: seq<Call>, n: nat, idem: string, i: nat)
    requires n <= |calls|
  {
    i < n && FirstAcceptedAt(d, key, calls, i) && d.text(calls[i].message.request.idempotencyKey) == d.text(idem)
  }

  ghost predicate KeyTaken(d: Digests, key: Key, calls: seq<Call>, n: nat, idem: string)
    requires n <= |calls|
  {
    exists i: nat :: KeyTakenBy(d, key, calls, n, idem, i)
  }

  lemma {:induction false} NonceIsKnownIffUsed(d: Digests, key: Key, calls: seq<Call>, n: nat, nonce: string)
    requires n <= |calls|
    ensures d.text(nonce) in After(d, key, calls, n).nonceHashes <==> NonceUsed(d, key, calls, n, nonce)
  {
    if n != 0 {
      NonceIsKnownIffUsed(d, key, calls, n - 1, nonce);
      NonceStep(d, key, calls, n - 1, nonce);
    }
  }

  lemma NonceStep(d: Digests, key: Key, calls: seq<Call>, n: nat, nonce: string)
    requires n < |calls|
    ensures d.text(nonce) in After(d, key, calls, n + 1).nonceHashes <==>
      || d.text(nonce) in After(d, key, calls, n).nonceHashes
      || (RecordedAt(d, key, calls, n) && d.text(calls[n].message.request.nonce) == d.text(nonce))
  {
  }

  lemma KeyIsKnownIffTaken(d: Digests, key: Key, calls: seq<Call>, n: nat, idem: string)
    requires n <= |calls|
    ensures d.text(idem) in After(d, key, calls, n).idempotency <==> KeyTaken(d, key, calls, n, idem)
    ensures forall i: nat :: KeyTakenBy(d, key, calls, n, idem, i) ==>
      After(d, key, calls, n).idempotency[d.text(idem)].requestHash == d.request(calls[i].message.request)
  {
    var kept := After(d, key, calls, n).idempotency;
    if d.text(idem) in kept {
      var i := StoredReceiptWasIssued(d, key, calls, n, d.text(idem));
      FreshIffNotDuplicate(d, key, calls, i);
      assert KeyTakenBy(d, key, calls, n, idem, i);
    }
    forall i: nat | KeyTakenBy(d, key, calls, n, idem, i)
      ensures d.text(idem) in kept && kept[d.text(idem)].requestHash == d.request(calls[i].message.request)
    {
      FreshIffNotDuplicate(d, key, calls, i);
      FirstReceiptIsKept(d, key, calls, i, n);
    }
  }

  // ---------- which call is answered how ----------

  /** The texts that are compared in constant time are ASCII, so that the comparison does not raise. */
  ghost predicate Comparable(c: Call) {
    && c.message.Typed?
    && CanonicalJson.Ascii(c.message.request.capability.authTag)
    && CanonicalJson.Ascii(c.message.request.capability.terms.principal)
    && CanonicalJson.Ascii(c.principal)
  }

  /** The request cannot be rebuilt at all, or it is authentic and the result is a commitment. */
  ghost predicate Vetted(d: Digests, key: Key, c: Call)
    requires c.message.Typed?
  {
    var r := c.message.request;
    Commitment(r.requestCommitment) ==> Authentic(d, key, r) && Commitment(c.resultCommitment)
  }

  ghost predicate ForPrincipal(c: Call)
    requires c.message.Typed?
  {
    c.message.request.capability.terms.principal == c.principal
  }

  ghost predicate OnItsTerms(c: Call)
    requires c.message.Typed?
  {
    var r := c.message.request;
    r.operation == r.capability.terms.operation && r.operatingMatterId == r.capability.terms.operatingMatterId
  }

  ghost predicate InTime(c: Call)
    requires c.message.Typed?
  {
    var t := c.message.request.capability.terms;
    t.issuedTick <= c.tick < t.expiresTick
  }

  /** All checks before the replay state succeed. */
  ghost predicate PassesChecks(d: Digests, key: Key, c: Call)
    requires c.message.Typed?
  {
    Vetted(d, key, c) && ForPrincipal(c) && OnItsTerms(c) && InTime(c)
  }

  lemma VettedIsBound(d: Digests, key: Key, c: Call)
    requires c.message.Typed?
    ensures Vetted(d, key, c) <==>
      RebuildRaises(c.message.request) || (Bound(d, key, c.message.request) && Hex64(c.resultCommitment))
    ensures RebuildRaises(c.message.request) <==> !Commitment(c.message.request.requestCommitment)
  {
    BoundMeansAuthentic(d, key, c.message.request);
    CommitmentIsHex(c.message.request.requestCommitment);
    CommitmentIsHex(c.resultCommitment);
  }

  ghost function VerdictAt(d: Digests, key: Key, calls: seq<Call>, n: nat): Verdict
    requires n < |calls| && calls[n].message.Typed?
  {
    var c := calls[n];
    VerdictOf(d, key, After(d, key, calls, n), c.message.request, c.principal, c.tick, c.resultCommitment)
  }

  /** The code in the ledger entry of a denied call. */
  ghost function CodeAt(d: Digests, key: Key, calls: seq<Call>, n: nat): Option<DenialCode>
    requires n < |calls| && RecordedAt(d, key, calls, n)
  {
    EntryOfCall(d, key, calls, n);
    After(d, key, calls, n + 1).entries[|After(d, key, calls, n).entries|].payload.code
  }

  lemma CodeIsVerdict(d: Digests, key: Key, calls: seq<Call>, n: nat)
    requires n < |calls| && RecordedAt(d, key, calls, n)
    ensures CodeAt(d, key, calls, n) ==
      if VerdictAt(d, key, calls, n).Refuse? then Some(VerdictAt(d, key, calls, n).code) else None
  {
  }

  /** A comparable call is recorded; the first check that fails gives the code of its denial. */
  lemma EarlyDenials(d: Digests, key: Key, calls: seq<Call>, n: nat)
    requires n < |calls| && Comparable(calls[n])
    ensures RecordedAt(d, key, calls, n)
    ensures
      var c, code := calls[n], CodeAt(d, key, calls, n);
      && (!Vetted(d, key, c) ==> code == Some(InvalidRequest))
      && (code == Some(IdentityMismatch) <==> Vetted(d, key, c) && !ForPrincipal(c))
      && (code == Some(AuthorityMismatch) <==> Vetted(d, key, c) && ForPrincipal(c) && !OnItsTerms(c))
      && (code == Some(Expired) <==> Vetted(d, key, c) && ForPrincipal(c) && OnItsTerms(c) && !InTime(c))
      && (!PassesChecks(d, key, c) ==> OutcomeAt(d, key, calls, n).Denied?)
  {
    VettedIsBound(d, key, calls[n]);
    CodeIsVerdict(d, key, calls, n);
  }

  /**
    What a call that passes the checks is answered, in terms of the calls before it: a taken key repeats the first
    receipt for the same request and denies every other one; under a fresh key a used nonce is denied.
   */
  lemma ReplayAnswer(d: Digests, key: Key, calls: seq<Call>, n: nat)
    requires n < |calls| && Comparable(calls[n]) && PassesChecks(d, key, calls[n])
    ensures RecordedAt(d, key, calls, n)
    ensures
      var r, code, outcome := calls[n].message.request, CodeAt(d, key, calls, n), OutcomeAt(d, key, calls, n);
      && (forall i: nat :: KeyTakenBy(d, key, calls, n, r.idempotencyKey, i) ==>
            if d.request(calls[i].message.request) == d.request(r) then outcome.Accepted? && outcome.receipt.duplicate
            else outcome.Denied? && code == Some(Replayed))
      && (!KeyTaken(d, key, calls, n, r.idempotencyKey) ==>
            if NonceUsed(d, key, calls, n, r.nonce) then outcome.Denied? && code == Some(Replayed)
            else if !Commitment(r.requestCommitment) then outcome.Denied? && code == Some(InvalidRequest)
            else FirstAcceptedAt(d, key, calls, n))
  {
    var r := calls[n].message.request;
    VettedIsBound(d, key, calls[n]);
    CodeIsVerdict(d, key, calls, n);
    NonceIsKnownIffUsed(d, key, calls, n, r.nonce);
    KeyIsKnownIffTaken(d, key, calls, n, r.idempotencyKey);
    StoredIsDuplicate(d, key, calls, n);
  }

  lemma StoredIsDuplicate(d: Digests, key: Key, calls: seq<Call>, n: nat)
    requires n < |calls| && calls[n].message.Typed?
    ensures VerdictAt(d, key, calls, n).Repeat? ==>
      OutcomeAt(d, key, calls, n).Accepted? && OutcomeAt(d, key, calls, n).receipt.duplicate
    ensures VerdictAt(d, key, calls, n).Fresh? <==> FirstAcceptedAt(d, key, calls, n)
  {
    FreshIffNotDuplicate(d, key, calls, n);
  }

  // ---------- what is issued ----------

  /** A capability is issued iff its terms are well-formed, and then for exactly these terms. */
  lemma IssuedCapability(d: Digests, key: Key, t: Unsigned)
    ensures IssueCapability(d, key, t).Success? <==>
      && 32 <= |key| && Commitment(t.principal)
      && t.operation in {"SubmitIngressCommitment", "RequestOperatingProjection", "AcknowledgeOutboxItem"}
      && PlainId(t.operatingMatterId) && PlainId(t.nonce) && PlainId(t.idempotencyKey)
      && 0 <= t.issuedTick < t.expiresTick
    ensures IssueCapability(d, key, t).Success? ==>
      var c := IssueCapability(d, key, t).value;
      && c.terms == t && c.revision == "sealed-ipc-core-g0-v1"
      && c.authTag == d.tag(key, t) && c.capabilityId == d.capabilityId(t, d.tag(key, t))
      && !c.containsRawPrincipal && !c.containsPath && !c.containsSecret && !c.containsPayload
  {
    CommitmentIsHex(t.principal);
    PlainIsSafe(t.operatingMatterId);
    PlainIsSafe(t.nonce);
    PlainIsSafe(t.idempotencyKey);
  }

  /** Up to 128 letters, digits, periods, underscores, colons and hyphens, and at least one. */
  ghost predicate PlainId(s: string) {
    && 1 <= |s| <= 128
    && forall i :: 0 <= i < |s| ==>
         || 'a' <= s[i] <= 'z' || 'A' <= s[i] <= 'Z' || '0' <= s[i] <= '9'
         || s[i] == '.' || s[i] == '_' || s[i] == ':' || s[i] == '-'
  }

  lemma PlainIsSafe(s: string)
    ensures PlainId(s) <==> SafeId(s)
  {
  }

  /** The request built from an issued capability is authentic. */
  lemma BuiltIsAuthentic(d: Digests, key: Key, t: Unsigned, commitment: string)
    requires IssueCapability(d, key, t).Success? && Commitment(commitment)
    ensures
      var built := BuildRequest(d, IssueCapability(d, key, t).value, commitment);
      && built.Success? && Authentic(d, key, built.value) && built.value.requestCommitment == commitment
      && built.value.capability == IssueCapability(d, key, t).value
  {
    CommitmentIsHex(commitment);
  }

  // ---------- what the validator guarantees ----------

  /** Entry `i` has the next number, continues the one before, hashes its columns, and is a denial iff it has a code. */
  ghost predicate Continues(d: Digests, entries: seq<Entry>, i: nat)
    requires i < |entries|
  {
    var e := entries[i].payload;
    && e.sequence == i + 1
    && e.priorEntryHash == (if i == 0 then d.text("ipc-ledger-genesis-v1") else entries[i - 1].entryHash)
    && entries[i].entryHash == d.entry(e)
    && !entries[i].workerVisible
    && (e.accepted <==> e.code == None)
  }

  /** What it means that the validator is silent, over the entries. */
  lemma SilenceMeans(d: Digests, entries: seq<Entry>)
    ensures ChainHolds(d, entries, |entries|) && DistinctHashes(entries, |entries|) <==>
      && (forall i :: 0 <= i < |entries| ==> Continues(d, entries, i))
      && (forall i, j :: 0 <= i < j < |entries| ==> entries[i].entryHash != entries[j].entryHash)
  {
    assert forall i: nat :: i < |entries| ==> (Continues(d, entries, i) <==> EntryHolds(d, entries, i));
  }
}
