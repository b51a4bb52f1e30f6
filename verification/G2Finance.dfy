/** The billing ledger of the G2 world (`FinanceLedger` of g2.py), over exact amounts. */
module G2Finance {
  datatype Balances = Balances(
    work: real,
    wip: real,
    submitted: real,
    approved: real,
    reduced: real,
    appealRecovery: real,
    receivable: real,
    cash: real,
    writeOff: real)

  const NOTHING_BILLED := Balances(0.0, 0.0, 0.0, 0.0, 0.0, 0.0, 0.0, 0.0, 0.0)

  datatype Operation =
    | Record(amount: real)
    | Submit
    | Audit(reduction: real)
    | Appeal(recovered: real)
    | Payment(cash: real)

  datatype InvariantError = WorkDiffers | SubmittedDiffers | ApprovedDiffers

  /** Whether the ledger takes the operation, instead of raising. */
  predicate Takes(b: Balances, op: Operation) {
    match op
    case Record(amount) => 0.0 < amount
    case Submit => 0.0 < b.wip
    case Audit(reduction) => 0.0 <= reduction <= b.submitted
    case Appeal(recovered) => 0.0 < recovered <= b.reduced
    case Payment(cash) => 0.0 <= cash <= b.receivable
  }

  /** The balances after an operation; a refused one changes nothing. */
  function Posted(b: Balances, op: Operation): Balances {
    if !Takes(b, op) then b
    else
      match op
      case Record(amount) => b.(work := b.work + amount, wip := b.wip + amount)
      case Submit => b.(wip := 0.0, submitted := b.submitted + b.wip)
      case Audit(reduction) =>
        b.(reduced := reduction, approved := b.submitted - reduction, receivable := b.submitted - reduction)
      case Appeal(recovered) =>
        b.(reduced := b.reduced - recovered, approved := b.approved + recovered,
           appealRecovery := b.appealRecovery + recovered, receivable := b.receivable + recovered)
      case Payment(cash) => b.(cash := b.cash + cash, receivable := b.receivable - cash)
  }

  /** `invariant_errors` */
  function InvariantErrors(b: Balances): seq<InvariantError> {
    (if b.work != b.wip + b.submitted then [WorkDiffers] else [])
    + (if b.submitted != b.approved + b.reduced then [SubmittedDiffers] else [])
    + (if b.approved != b.receivable + b.cash + b.writeOff then [ApprovedDiffers] else [])
  }

  predicate Reconciles(b: Balances) {
    && b.work == b.wip + b.submitted
    && b.submitted == b.approved + b.reduced
    && b.approved == b.receivable + b.cash + b.writeOff
  }

  lemma NoErrorsIffReconciles(b: Balances)
    ensures InvariantErrors(b) == [] <==> Reconciles(b)
  {
  }

  class FinanceLedger {
    var work: real
    var wip: real
    var submitted: real
    var approved: real
    var reduced: real
    var appealRecovery: real
    var receivable: real
    var cash: real
    var writeOff: real

    constructor ()
      ensures State() == NOTHING_BILLED
    {
      work, wip, submitted, approved, reduced := 0.0, 0.0, 0.0, 0.0, 0.0;
      appealRecovery, receivable, cash, writeOff := 0.0, 0.0, 0.0, 0.0;
    }

    function State(): Balances
      reads this
    {
      Balances(work, wip, submitted, approved, reduced, appealRecovery, receivable, cash, writeOff)
    }

    method RecordTime(amount: real) returns (taken: bool)
      modifies this
      ensures taken == Takes(old(State()), Record(amount)) && State() == Posted(old(State()), Record(amount))
    {
      if amount <= 0.0 {
        return false;
      }
      work := work + amount;
      wip := wip + amount;
      return true;
    }

    method SubmitInvoice() returns (taken: bool, amount: real)
      modifies this
      ensures taken == Takes(old(State()), Operation.Submit) && State() == Posted(old(State()), Operation.Submit)
      ensures taken ==> amount == old(wip)
    {
      amount := wip;
      if wip <= 0.0 {
        return false, amount;
      }
      wip := 0.0;
      submitted := submitted + amount;
      taken := true;
    }

    method CarrierAudit(reduction: real) returns (taken: bool)
      modifies this
      ensures taken == Takes(old(State()), Audit(reduction)) && State() == Posted(old(State()), Audit(reduction))
    {
      if reduction < 0.0 || submitted < reduction {
        return false;
      }
      reduced := reduction;
      approved := submitted - reduction;
      receivable := approved;
      return true;
    }

    method AppealReduction(recovered: real) returns (taken: bool)
      modifies this
      ensures taken == Takes(old(State()), Appeal(recovered)) && State() == Posted(old(State()), Appeal(recovered))
    {
      if recovered <= 0.0 || reduced < recovered {
        return false;
      }
      reduced := reduced - recovered;
      approved := approved + recovered;
      appealRecovery := appealRecovery + recovered;
      receivable := receivable + recovered;
      return true;
    }

    method ApplyPayment(payment: real) returns (taken: bool)
      modifies this
      ensures taken == Takes(old(State()), Payment(payment)) && State() == Posted(old(State()), Payment(payment))
    {
      if payment < 0.0 || receivable < payment {
        return false;
      }
      cash := cash + payment;
      receivable := receivable - payment;
      return true;
    }
  }

  // ---------- every sequence of operations ----------

  function After(ops: seq<Operation>, n: nat): Balances
    requires n <= |ops|
  {
    if n == 0 then NOTHING_BILLED else Posted(After(ops, n - 1), ops[n - 1])
  }

  predicate TakenAt(ops: seq<Operation>, n: nat)
    requires n < |ops|
  {
    Takes(After(ops, n), ops[n])
  }

  /** What was moved from work in progress to invoices since the last audit. */
  function InvoicedSinceAudit(ops: seq<Operation>, n: nat): real
    requires n <= |ops|
  {
    if n == 0 then 0.0
    else if ops[n - 1].Audit? && TakenAt(ops, n - 1) then 0.0
    else if ops[n - 1].Submit? && TakenAt(ops, n - 1) then InvoicedSinceAudit(ops, n - 1) + After(ops, n - 1).wip
    else InvoicedSinceAudit(ops, n - 1)
  }

  /** All payments taken before the last audit. */
  function PaidBeforeAudit(ops: seq<Operation>, n: nat): real
    requires n <= |ops|
  {
    if n == 0 then 0.0
    else if ops[n - 1].Audit? && TakenAt(ops, n - 1) then PaymentsTaken(ops, n - 1)
    else PaidBeforeAudit(ops, n - 1)
  }

  function PaymentsTaken(ops: seq<Operation>, n: nat): (total: real)
    requires n <= |ops|
    ensures 0.0 <= total
  {
    if n == 0 then 0.0
    else PaymentsTaken(ops, n - 1) + if ops[n - 1].Payment? && TakenAt(ops, n - 1) then ops[n - 1].cash else 0.0
  }

  predicate NonNegative(b: Balances) {
    && 0.0 <= b.work && 0.0 <= b.wip && 0.0 <= b.submitted && 0.0 <= b.approved && 0.0 <= b.reduced
    && 0.0 <= b.appealRecovery && 0.0 <= b.receivable && 0.0 <= b.cash && b.writeOff == 0.0
  }

  /** Where every amount of the ledger went, after any operations. */
  lemma {:induction false} BillingIsConserved(ops: seq<Operation>, n: nat)
    requires n <= |ops|
    ensures
      var b := After(ops, n);
      && NonNegative(b)
      && b.work == b.wip + b.submitted
      && b.submitted - b.approved - b.reduced == InvoicedSinceAudit(ops, n)
      && b.receivable + b.cash - b.approved == PaidBeforeAudit(ops, n)
      && b.cash == PaymentsTaken(ops, n)
  {
    if n != 0 {
      BillingIsConserved(ops, n - 1);
    }
  }

  /** The ledger reconciles iff nothing was invoiced since the last audit and nothing was paid before it. */
  lemma ReconcilesExactlyWhen(ops: seq<Operation>, n: nat)
    requires n <= |ops|
    ensures InvariantErrors(After(ops, n)) == []
      <==> InvoicedSinceAudit(ops, n) == 0.0 && PaidBeforeAudit(ops, n) == 0.0
  {
    BillingIsConserved(ops, n);
    NoErrorsIffReconciles(After(ops, n));
  }

  // ---------- an audit after a payment ----------

  /** More was received or is owed than was approved. */
  predicate Overdrawn(b: Balances) {
    b.writeOff == 0.0 && 0.0 < b.cash && b.approved < b.receivable + b.cash
  }

  /** Right after an audit the ledger reconciles iff nothing had been paid. */
  lemma AuditReconcilesExactlyWhen(ops: seq<Operation>, n: nat)
    requires 0 < n <= |ops| && ops[n - 1].Audit? && TakenAt(ops, n - 1)
    ensures InvariantErrors(After(ops, n)) == [] <==> PaymentsTaken(ops, n - 1) == 0.0
  {
    ReconcilesExactlyWhen(ops, n);
  }

  lemma {:induction false} PaidBeforeIsPaid(ops: seq<Operation>, n: nat)
    requires n <= |ops|
    ensures 0.0 <= PaidBeforeAudit(ops, n) <= PaymentsTaken(ops, n)
  {
    if n != 0 {
      PaidBeforeIsPaid(ops, n - 1);
    }
  }

  /** A ledger is overdrawn iff something was paid before the last audit. */
  lemma OverdrawnExactlyWhen(ops: seq<Operation>, n: nat)
    requires n <= |ops|
    ensures Overdrawn(After(ops, n)) <==> 0.0 < PaidBeforeAudit(ops, n)
  {
    BillingIsConserved(ops, n);
    PaidBeforeIsPaid(ops, n);
  }

  /** An overdrawn ledger does not reconcile, and no operation mends it. */
  lemma OverdrawnForGood(b: Balances, op: Operation)
    requires Overdrawn(b)
    ensures InvariantErrors(b) != [] && Overdrawn(Posted(b, op))
  {
  }

  /** The shortest way there from the empty ledger. */
  lemma SecondAuditOverdraws(amount: real) returns (ops: seq<Operation>)
    requires 0.0 < amount
    ensures |ops| == 5 && forall n :: 0 <= n < 5 ==> TakenAt(ops, n)
    ensures InvariantErrors(After(ops, 4)) == [] && Overdrawn(After(ops, 5))
  {
    ops := [Record(amount), Operation.Submit, Audit(0.0), Payment(amount), Audit(0.0)];
    assert After(ops, 1) == NOTHING_BILLED.(work := amount, wip := amount);
    assert After(ops, 2) == NOTHING_BILLED.(work := amount, submitted := amount);
    assert After(ops, 3) == After(ops, 2).(approved := amount, receivable := amount);
    assert After(ops, 4) == After(ops, 2).(approved := amount, cash := amount);
    NoErrorsIffReconciles(After(ops, 4));
  }

  // ---------- what is owed ----------

  /** The amount approved by the last audit. */
  function ApprovedAtAudit(ops: seq<Operation>, n: nat): real
    requires n <= |ops|
  {
    if n == 0 then 0.0
    else if ops[n - 1].Audit? && TakenAt(ops, n - 1) then After(ops, n - 1).submitted - ops[n - 1].reduction
    else ApprovedAtAudit(ops, n - 1)
  }

  /** What appeals recovered since the last audit. */
  function RecoveredSinceAudit(ops: seq<Operation>, n: nat): real
    requires n <= |ops|
  {
    if n == 0 then 0.0
    else if ops[n - 1].Audit? && TakenAt(ops, n - 1) then 0.0
    else if ops[n - 1].Appeal? && TakenAt(ops, n - 1) then RecoveredSinceAudit(ops, n - 1) + ops[n - 1].recovered
    else RecoveredSinceAudit(ops, n - 1)
  }

  lemma {:induction false} ApprovedIs(ops: seq<Operation>, n: nat)
    requires n <= |ops|
    ensures After(ops, n).approved == ApprovedAtAudit(ops, n) + RecoveredSinceAudit(ops, n)
  {
    if n != 0 {
      ApprovedIs(ops, n - 1);
    }
  }

  /** What is still owed, after any operations. */
  lemma ReceivableIs(ops: seq<Operation>, n: nat)
    requires n <= |ops|
    ensures After(ops, n).receivable
         == ApprovedAtAudit(ops, n) + RecoveredSinceAudit(ops, n) + PaidBeforeAudit(ops, n) - PaymentsTaken(ops, n)
  {
    ApprovedIs(ops, n);
    BillingIsConserved(ops, n);
  }

  // ---------- the whole ledger as history ----------

  /** All time recorded. */
  function Recorded(ops: seq<Operation>, n: nat): real
    requires n <= |ops|
  {
    if n == 0 then 0.0
    else Recorded(ops, n - 1) + if ops[n - 1].Record? && 0.0 < ops[n - 1].amount then ops[n - 1].amount else 0.0
  }

  /** The time recorded since the last invoice. */
  function RecordedSinceInvoice(ops: seq<Operation>, n: nat): real
    requires n <= |ops|
  {
    if n == 0 then 0.0
    else if ops[n - 1].Submit? then 0.0
    else
      RecordedSinceInvoice(ops, n - 1)
      + if ops[n - 1].Record? && 0.0 < ops[n - 1].amount then ops[n - 1].amount else 0.0
  }

  /** The reduction of the last audit taken. */
  function ReductionAtAudit(ops: seq<Operation>, n: nat): real
    requires n <= |ops|
  {
    if n == 0 then 0.0
    else if ops[n - 1].Audit? && TakenAt(ops, n - 1) then ops[n - 1].reduction
    else ReductionAtAudit(ops, n - 1)
  }

  /** All that appeals ever recovered. */
  function Recovered(ops: seq<Operation>, n: nat): real
    requires n <= |ops|
  {
    if n == 0 then 0.0
    else Recovered(ops, n - 1) + if ops[n - 1].Appeal? && TakenAt(ops, n - 1) then ops[n - 1].recovered else 0.0
  }

  lemma {:induction false} TimeIsHistory(ops: seq<Operation>, n: nat)
    requires n <= |ops|
    ensures
      var b := After(ops, n);
      b.work == Recorded(ops, n) && b.wip == RecordedSinceInvoice(ops, n) && 0.0 <= b.wip
  {
    if n != 0 {
      TimeIsHistory(ops, n - 1);
    }
  }

  lemma {:induction false} ReductionIsHistory(ops: seq<Operation>, n: nat)
    requires n <= |ops|
    ensures
      var b := After(ops, n);
      b.reduced == ReductionAtAudit(ops, n) - RecoveredSinceAudit(ops, n) && b.appealRecovery == Recovered(ops, n)
  {
    if n != 0 {
      ReductionIsHistory(ops, n - 1);
    }
  }

  /** Every balance, in terms of what was taken before. */
  lemma LedgerIsHistory(ops: seq<Operation>, n: nat)
    requires n <= |ops|
    ensures
      var b := After(ops, n);
      && b.work == Recorded(ops, n)
      && b.wip == RecordedSinceInvoice(ops, n)
      && b.submitted == Recorded(ops, n) - RecordedSinceInvoice(ops, n)
      && b.approved == ApprovedAtAudit(ops, n) + RecoveredSinceAudit(ops, n)
      && b.reduced == ReductionAtAudit(ops, n) - RecoveredSinceAudit(ops, n)
      && b.appealRecovery == Recovered(ops, n)
      && b.receivable == b.approved + PaidBeforeAudit(ops, n) - PaymentsTaken(ops, n)
      && b.cash == PaymentsTaken(ops, n)
      && b.writeOff == 0.0
  {
    TimeIsHistory(ops, n);
    ReductionIsHistory(ops, n);
    ApprovedIs(ops, n);
    BillingIsConserved(ops, n);
  }

  /** Which operations are taken, in terms of what was taken before. */
  lemma TakenExactlyWhen(ops: seq<Operation>, n: nat)
    requires n < |ops|
    ensures TakenAt(ops, n) <==>
      match ops[n]
      case Record(amount) => 0.0 < amount
      case Submit => 0.0 < RecordedSinceInvoice(ops, n)
      case Audit(reduction) => 0.0 <= reduction <= Recorded(ops, n) - RecordedSinceInvoice(ops, n)
      case Appeal(recovered) => 0.0 < recovered <= ReductionAtAudit(ops, n) - RecoveredSinceAudit(ops, n)
      case Payment(cash) =>
        0.0 <= cash <= ApprovedAtAudit(ops, n) + RecoveredSinceAudit(ops, n) + PaidBeforeAudit(ops, n)
                       - PaymentsTaken(ops, n)
  {
    LedgerIsHistory(ops, n);
  }
}
