/**
  Capabilities, requests, the append-only replay ledger and the authorizer
  (sealed_ipc_protocol.py), for calls made one after another.
 */
module SealedIpc {
  import opened Wrappers
  import CanonicalJson

  const REVISION := "sealed-ipc-core-g0-v1"
  const GENESIS := "ipc-ledger-genesis-v1"
  const OPERATIONS: set<string> :=
    { "SubmitIngressCommitment", "RequestOperatingProjection", "AcknowledgeOutboxItem" }

  type Key = seq<bv8>

  datatype IpcError =
    | SigningKeyInvalid
    | PrincipalCommitmentInvalid
    | OperationInvalid
    | OperatingMatterIdInvalid
    | CapabilityIntervalInvalid
    | ReplayBindingInvalid
    | RequestCommitmentInvalid

  datatype DenialCode = Expired | Replayed | InvalidRequest | IdentityMismatch | AuthorityMismatch

  /** What the authentication tag of a capability covers, besides the revision. */
  datatype Unsigned = Unsigned(
    principal: string,
    operatingMatterId: string,
    operation: string,
    issuedTick: int,
    expiresTick: int,
    nonce: string,
    idempotencyKey: string)

  datatype Capability = Capability(
    capabilityId: string,
    revision: string,
    terms: Unsigned,
    authTag: string,
    containsRawPrincipal: bool,
    containsPath: bool,
    containsSecret: bool,
    containsPayload: bool)

  datatype RequestPayload = RequestPayload(
    capabilityHash: string,
    operation: string,
    operatingMatterId: string,
    requestCommitment: string,
    nonce: string,
    idempotencyKey: string)

  datatype Request = Request(
    requestId: string,
    revision: string,
    capability: Capability,
    operation: string,
    operatingMatterId: string,
    requestCommitment: string,
    nonce: string,
    idempotencyKey: string,
    containsPayload: bool,
    canonicalWriteRequested: bool,
    externalEffectRequested: bool)

  datatype ReceiptPayload = ReceiptPayload(
    requestHash: string, operation: string, operatingMatterId: string, resultCommitment: string)

  datatype Receipt = Receipt(
    receiptId: string,
    requestId: string,
    operation: string,
    operatingMatterId: string,
    resultCommitment: string,
    duplicate: bool)

  datatype EntryPayload = EntryPayload(
    sequence: int,
    requestHash: string,
    capabilityHash: string,
    principal: string,
    nonceCommitment: string,
    idempotencyKeyCommitment: string,
    accepted: bool,
    code: Option<DenialCode>,
    priorEntryHash: string)

  datatype Entry = Entry(payload: EntryPayload, entryHash: string, workerVisible: bool)

  /** The keyed tag and the digests, each as a function of what it covers. */
  datatype Digests = Digests(
    tag: (Key, Unsigned) -> string,
    capabilityId: (Unsigned, string) -> string,
    capability: Capability -> string,
    requestId: RequestPayload -> string,
    request: Request -> string,
    receiptId: ReceiptPayload -> string,
    text: string -> string,
    entry: EntryPayload -> string)

  // ---------- capabilities and requests ----------

  predicate Hex64(s: string) {
    |s| == 64 && forall i :: 0 <= i < 64 ==> '0' <= s[i] <= '9' || 'a' <= s[i] <= 'f'
  }

  predicate SafeId(s: string) {
    && 1 <= |s| <= 128
    && forall i :: 0 <= i < |s| ==>
         'A' <= s[i] <= 'Z' || 'a' <= s[i] <= 'z' || '0' <= s[i] <= '9' || s[i] in "._:-"
  }

  /** `issue_capability` */
  function IssueCapability(d: Digests, key: Key, terms: Unsigned): (r: Result<Capability, IpcError>)
  {
    if |key| < 32 then Failure(SigningKeyInvalid)
    else if !Hex64(terms.principal) then Failure(PrincipalCommitmentInvalid)
    else if terms.operation !in OPERATIONS then Failure(OperationInvalid)
    else if !SafeId(terms.operatingMatterId) then Failure(OperatingMatterIdInvalid)
    else if terms.issuedTick < 0 || terms.expiresTick <= terms.issuedTick then Failure(CapabilityIntervalInvalid)
    else if !SafeId(terms.nonce) || !SafeId(terms.idempotencyKey) then Failure(ReplayBindingInvalid)
    else
      var tag := d.tag(key, terms);
      Success(Capability(d.capabilityId(terms, tag), REVISION, terms, tag, false, false, false, false))
  }

  /** `build_request` */
  function BuildRequest(d: Digests, c: Capability, commitment: string): (r: Result<Request, IpcError>)
    ensures r.Success? <==> Hex64(commitment)
  {
    if !Hex64(commitment) then Failure(RequestCommitmentInvalid)
    else
      var payload := RequestPayload(
        d.capability(c), c.terms.operation, c.terms.operatingMatterId, commitment,
        c.terms.nonce, c.terms.idempotencyKey);
      Success(Request(
        d.requestId(payload), REVISION, c, c.terms.operation, c.terms.operatingMatterId, commitment,
        c.terms.nonce, c.terms.idempotencyKey, false, false, false))
  }

  // ---------- the ledger ----------

  datatype Prior = Prior(requestHash: string, receipt: Receipt)

  datatype LedgerState = LedgerState(
    entries: seq<Entry>, nonceHashes: set<string>, idempotency: map<string, Prior>)

  const EMPTY_LEDGER := LedgerState([], {}, map[])

  function HeadHash(d: Digests, entries: seq<Entry>): string {
    if entries == [] then d.text(GENESIS) else entries[|entries| - 1].entryHash
  }

  function NextPayload(
      d: Digests, entries: seq<Entry>, r: Request, principal: string, code: Option<DenialCode>): EntryPayload {
    EntryPayload(
      |entries| + 1, d.request(r), d.capability(r.capability), principal,
      d.text(r.nonce), d.text(r.idempotencyKey), code.None?, code, HeadHash(d, entries))
  }

  /** The ledger after one appended entry; a receipt, when there is one, is kept under its idempotency key. */
  function Appended(
      d: Digests, s: LedgerState, r: Request, principal: string,
      code: Option<DenialCode>, success: Option<Receipt>): LedgerState
  {
    var payload := NextPayload(d, s.entries, r, principal, code);
    LedgerState(
      s.entries + [Entry(payload, d.entry(payload), false)],
      s.nonceHashes + {d.text(r.nonce)},
      if success.Some? then
        s.idempotency[d.text(r.idempotencyKey) := Prior(d.request(r), success.value)] else s.idempotency)
  }

  class AppendOnlyReplayLedger {
    var entries: seq<Entry>
    var nonceHashes: set<string>
    var idempotency: map<string, Prior>

    constructor ()
      ensures State() == EMPTY_LEDGER
    {
      entries, nonceHashes, idempotency := [], {}, map[];
    }

    ghost function State(): LedgerState
      reads this
    {
      LedgerState(entries, nonceHashes, idempotency)
    }

    method HasNonce(nonceHash: string) returns (seen: bool)
      ensures seen <==> nonceHash in State().nonceHashes
    {
      seen := nonceHash in nonceHashes;
    }

    method PriorSuccess(idempotencyHash: string) returns (prior: Option<Prior>)
      ensures prior.Some? <==> idempotencyHash in State().idempotency
      ensures prior.Some? ==> prior.value == State().idempotency[idempotencyHash]
    {
      prior := if idempotencyHash in idempotency then Some(idempotency[idempotencyHash]) else None;
    }

    /** An accepted entry has no denial code and carries its receipt. */
    method Append(d: Digests, r: Request, principal: string, code: Option<DenialCode>, success: Option<Receipt>)
      requires success.Some? <==> code.None?
      modifies this
      ensures State() == Appended(d, old(State()), r, principal, code, success)
    {
      var priorHash := if entries == [] then d.text(GENESIS) else entries[|entries| - 1].entryHash;
      var nonceHash, idemHash := d.text(r.nonce), d.text(r.idempotencyKey);
      var unsigned := EntryPayload(
        |entries| + 1, d.request(r), d.capability(r.capability), principal,
        nonceHash, idemHash, code.None?, code, priorHash);
      entries := entries + [Entry(unsigned, d.entry(unsigned), false)];
      nonceHashes := nonceHashes + {nonceHash};
      if success.Some? {
        idempotency := idempotency[idemHash := Prior(d.request(r), success.value)];
      }
    }
  }

  // ---------- what authorization means ----------

  /** A request, or an object whose type (or whose capability's type) is refused. */
  datatype Message = Foreign(requestId: string) | Typed(request: Request)

  datatype Call = Call(message: Message, principal: string, tick: int, resultCommitment: string)

  datatype Outcome = Denied(requestId: string) | Accepted(receipt: Receipt) | TypeErrorRaised

  datatype Verdict = Refuse(code: DenialCode) | Repeat(first: Receipt) | Fresh | Crash

  predicate RebuildRaises(r: Request) {
    !Hex64(r.requestCommitment)
  }

  /** The request is the one built from its capability, and the capability is the one issued for its terms. */
  predicate Bound(d: Digests, key: Key, r: Request) {
    var c := r.capability;
    && c.revision == REVISION
    && c.authTag == d.tag(key, c.terms)
    && c.capabilityId == d.capabilityId(c.terms, c.authTag)
    && BuildRequest(d, c, r.requestCommitment) == Success(r)
  }

  predicate InInterval(r: Request, tick: int) {
    r.capability.terms.issuedTick <= tick < r.capability.terms.expiresTick
  }

  predicate SameAuthority(r: Request) {
    r.operation == r.capability.terms.operation && r.operatingMatterId == r.capability.terms.operatingMatterId
  }

  /** `hmac.compare_digest` of text raises unless both sides are ASCII. */
  predicate ComparisonRaises(d: Digests, key: Key, r: Request, principal: string, result: string) {
    if !RebuildRaises(r) && r.capability.revision == REVISION && !CanonicalJson.Ascii(r.capability.authTag) then true
    else if !RebuildRaises(r) && !(Bound(d, key, r) && Hex64(result)) then false
    else !CanonicalJson.Ascii(r.capability.terms.principal) || !CanonicalJson.Ascii(principal)
  }

  function VerdictOf(
      d: Digests, key: Key, s: LedgerState, r: Request, principal: string, tick: int, result: string): Verdict
  {
    var idem := d.text(r.idempotencyKey);
    if ComparisonRaises(d, key, r, principal, result) then Crash
    else if !RebuildRaises(r) && !(Bound(d, key, r) && Hex64(result)) then Refuse(InvalidRequest)
    else if r.capability.terms.principal != principal then Refuse(IdentityMismatch)
    else if !SameAuthority(r) then Refuse(AuthorityMismatch)
    else if !InInterval(r, tick) then Refuse(Expired)
    else if idem in s.idempotency then
      if s.idempotency[idem].requestHash == d.request(r) then Repeat(s.idempotency[idem].receipt) else Refuse(Replayed)
    else if d.text(r.nonce) in s.nonceHashes then Refuse(Replayed)
    else if RebuildRaises(r) then Refuse(InvalidRequest)
    else Fresh
  }

  function ReceiptFor(d: Digests, r: Request, result: string): Receipt {
    Receipt(d.receiptId(ReceiptPayload(d.request(r), r.operation, r.operatingMatterId, result)),
            r.requestId, r.operation, r.operatingMatterId, result, false)
  }

  function OutcomeOf(d: Digests, key: Key, s: LedgerState, c: Call): Outcome {
    match c.message
    case Foreign(id) => Denied(id)
    case Typed(r) =>
      match VerdictOf(d, key, s, r, c.principal, c.tick, c.resultCommitment)
      case Crash => TypeErrorRaised
      case Refuse(_) => Denied(r.requestId)
      case Repeat(first) => Accepted(first.(duplicate := true))
      case Fresh => Accepted(ReceiptFor(d, r, c.resultCommitment))
  }

  function NextState(d: Digests, key: Key, s: LedgerState, c: Call): LedgerState {
    match c.message
    case Foreign(_) => s
    case Typed(r) =>
      match VerdictOf(d, key, s, r, c.principal, c.tick, c.resultCommitment)
      case Crash => s
      case Refuse(code) => Appended(d, s, r, c.principal, Some(code), None)
      case Repeat(first) => Appended(d, s, r, c.principal, None, Some(first))
      case Fresh => Appended(d, s, r, c.principal, None, Some(ReceiptFor(d, r, c.resultCommitment)))
  }

  /** `SealedIpcAuthorizer(signing_key, ledger)` */
  method NewAuthorizer(d: Digests, key: Key, ledger: AppendOnlyReplayLedger)
    returns (r: Result<SealedIpcAuthorizer, IpcError>)
    ensures r.Failure? <==> |key| < 32
    ensures r.Failure? ==> r.error == SigningKeyInvalid
    ensures r.Success? ==> r.value.d == d && r.value.key == key && r.value.ledger == ledger
  {
    if |key| < 32 {
      return Failure(SigningKeyInvalid);
    }
    var authorizer := new SealedIpcAuthorizer(d, key, ledger);
    return Success(authorizer);
  }

  class SealedIpcAuthorizer {
    const d: Digests
    const key: Key
    const ledger: AppendOnlyReplayLedger

    constructor (d: Digests, key: Key, ledger: AppendOnlyReplayLedger)
      ensures this.d == d && this.key == key && this.ledger == ledger
    {
      this.d, this.key, this.ledger := d, key, ledger;
    }

    /** The replay checks, reached with `denial` set only if the rebuild raised. */
    method CheckReplay(r: Request) returns (prior: Option<Prior>, seen: bool)
      ensures prior.Some? <==> d.text(r.idempotencyKey) in ledger.State().idempotency
      ensures prior.Some? ==> prior.value == ledger.State().idempotency[d.text(r.idempotencyKey)]
      ensures prior.None? ==> (seen <==> d.text(r.nonce) in ledger.State().nonceHashes)
    {
      seen := false;
      prior := ledger.PriorSuccess(d.text(r.idempotencyKey));
      if prior.None? {
        seen := ledger.HasNonce(d.text(r.nonce));
      }
    }

    /** The branches of `authorize` that deny; no code means that the request is accepted or repeated. */
    method Screen(r: Request, principal: string, tick: int, result: string)
      returns (raised: bool, denial: Option<DenialCode>, prior: Option<Prior>)
      ensures
        var verdict := VerdictOf(d, key, ledger.State(), r, principal, tick, result);
        && (raised <==> verdict == Crash)
        && (!raised ==> (denial.Some? <==> verdict.Refuse?))
        && (!raised && denial.Some? ==> verdict == Refuse(denial.value))
        && (!raised && denial.None? ==> (prior.Some? <==> verdict.Repeat?))
        && (!raised && denial.None? && prior.Some? ==> verdict == Repeat(prior.value.receipt))
    {
      raised, denial, prior := false, None, None;
      var c := r.capability;
      var expected := BuildRequest(d, c, r.requestCommitment);
      if expected.Failure? {
        denial := Some(InvalidRequest);
      }
      if denial.None? && c.revision == REVISION && !CanonicalJson.Ascii(c.authTag) {
        raised := true;
        return;
      }
      if denial.None? && (
        || c.revision != REVISION
        || c.authTag != d.tag(key, c.terms)
        || c.capabilityId != d.capabilityId(c.terms, d.tag(key, c.terms))
        || expected != Success(r)
        || r.containsPayload
        || r.canonicalWriteRequested
        || r.externalEffectRequested
        || !Hex64(result)) {
        denial := Some(InvalidRequest);
        return;
      }
      if !CanonicalJson.Ascii(c.terms.principal) || !CanonicalJson.Ascii(principal) {
        raised := true;
      } else if c.terms.principal != principal {
        denial := Some(IdentityMismatch);
      } else if r.operation != c.terms.operation || r.operatingMatterId != c.terms.operatingMatterId {
        denial := Some(AuthorityMismatch);
      } else if tick < c.terms.issuedTick || c.terms.expiresTick <= tick {
        denial := Some(Expired);
      } else {
        var seen;
        prior, seen := CheckReplay(r);
        if prior.Some? {
          denial := if prior.value.requestHash == d.request(r) then None else Some(Replayed);
        } else if seen {
          denial := Some(Replayed);
        }
      }
    }

    /** `authorize` */
    method Authorize(c: Call) returns (outcome: Outcome)
      modifies ledger
      ensures outcome == OutcomeOf(d, key, old(ledger.State()), c)
      ensures ledger.State() == NextState(d, key, old(ledger.State()), c)
    {
      match c.message
      case Foreign(id) =>
        outcome := Denied(id);
      case Typed(r) =>
        var raised, denial, prior := Screen(r, c.principal, c.tick, c.resultCommitment);
        if raised {
          outcome := TypeErrorRaised;
        } else if denial.Some? {
          ledger.Append(d, r, c.principal, denial, None);
          outcome := Denied(r.requestId);
        } else if prior.Some? {
          ledger.Append(d, r, c.principal, None, Some(prior.value.receipt));
          outcome := Accepted(prior.value.receipt.(duplicate := true));
        } else {
          var payload := ReceiptPayload(d.request(r), r.operation, r.operatingMatterId, c.resultCommitment);
          var receipt := Receipt(
            d.receiptId(payload), r.requestId, r.operation, r.operatingMatterId, c.resultCommitment, false);
          ledger.Append(d, r, c.principal, None, Some(receipt));
          outcome := Accepted(receipt);
        }
    }
  }
}
