/**
  The manifest of a schedule, its normal order, and the greedy reference scheduler
  (simulation_schedule_core.py).
 */
module ScheduleCore {
  import opened Wrappers

  datatype ResourceSpec = ResourceSpec(
    resourceClass: string, capacity: int, queuePolicy: string, nonPreemptive: bool)

  datatype Proposal = Proposal(
    proposalId: string,
    commandCommitment: string,
    schedulingClass: string,
    readyTick: int,
    serviceTicks: int,
    resourceClass: string,
    priority: int,
    submissionOrdinal: int,
    tieBreakKey: string,
    expectedDisposition: string)

  // envelopeValid is the verdict of the checks on revisions, flags, commitments and text.
  datatype Manifest = Manifest(
    resources: seq<ResourceSpec>,
    proposals: seq<Proposal>,
    maxWaitTicks: int,
    maxFinishTick: int,
    envelopeValid: bool)

  datatype QueueDecision = QueueDecision(
    proposalId: string,
    schedulingClass: string,
    resourceClass: string,
    plannedStartTick: int,
    plannedFinishTick: int,
    deterministicOrdinal: int,
    expectedDisposition: string,
    kernelAcceptance: bool)

  datatype PlanError = ManifestInvalid | StarvationCeilingExceeded | FinishCeilingExceeded

  type Capacities = map<string, nat>

  const RESOURCE_CLASSES: set<string> := {
    "intake_operations", "conflicts_operations", "responsible_counsel", "docketing_operations",
    "independent_deadline_review", "litigation_support", "billing_operations", "carrier_review" }

  predicate ValidResource(spec: ResourceSpec) {
    0 < spec.capacity <= 16 && spec.queuePolicy == "deterministic_fifo" && spec.nonPreemptive
  }

  predicate ValidProposal(m: Manifest, p: Proposal) {
    && p.resourceClass in RESOURCE_CLASSES
    && 0 <= p.readyTick
    && 0 < p.serviceTicks <= m.maxFinishTick
    && 0 <= p.priority <= 100
    && p.expectedDisposition in {"accepted", "denied_boundary_probe"}
  }

  predicate DistinctOrdinals(ps: seq<Proposal>) {
    forall i, j :: 0 <= i < j < |ps| ==> ps[i].submissionOrdinal != ps[j].submissionOrdinal
  }

  predicate DistinctIds(ps: seq<Proposal>) {
    forall i, j :: 0 <= i < j < |ps| ==> ps[i].proposalId != ps[j].proposalId
  }

  /** What `validate_schedule_manifest` accepts. */
  predicate ValidManifest(m: Manifest) {
    && m.envelopeValid
    && (forall i, j :: 0 <= i < j < |m.resources| ==> m.resources[i].resourceClass != m.resources[j].resourceClass)
    && (set spec | spec in m.resources :: spec.resourceClass) == RESOURCE_CLASSES
    && (forall spec :: spec in m.resources ==> ValidResource(spec))
    && 0 < |m.proposals| <= 1000
    && DistinctIds(m.proposals)
    && DistinctOrdinals(m.proposals)
    && (forall p :: p in m.proposals ==> 1 <= p.submissionOrdinal <= |m.proposals|)
    && (forall i, j :: 0 <= i < j < |m.proposals| ==>
          && m.proposals[i].commandCommitment != m.proposals[j].commandCommitment
          && m.proposals[i].tieBreakKey != m.proposals[j].tieBreakKey)
    && (forall p :: p in m.proposals ==> ValidProposal(m, p))
    && 0 < m.maxWaitTicks
    && 0 < m.maxFinishTick
  }

  // ---------- normal order ----------

  /** Sort-key order. Ordinals of a valid manifest differ, so later key components never decide. */
  predicate Before(a: Proposal, b: Proposal) {
    || a.readyTick < b.readyTick
    || (a.readyTick == b.readyTick && a.priority < b.priority)
    || (a.readyTick == b.readyTick && a.priority == b.priority && a.submissionOrdinal < b.submissionOrdinal)
  }

  predicate Normalized(jobs: seq<Proposal>) {
    forall i, j :: 0 <= i < j < |jobs| ==> Before(jobs[i], jobs[j])
  }

  function Insert(p: Proposal, sorted: seq<Proposal>): (r: seq<Proposal>)
    ensures multiset(r) == multiset{p} + multiset(sorted)
  {
    if sorted == [] || Before(p, sorted[0]) then
      [p] + sorted
    else
      assert sorted == [sorted[0]] + sorted[1..];
      [sorted[0]] + Insert(p, sorted[1..])
  }

  /** `_normalized_proposals` on the proposals of a valid manifest. */
  function Normalize(ps: seq<Proposal>): (r: seq<Proposal>)
    ensures multiset(r) == multiset(ps)
    ensures |r| == |ps|
  {
    if ps == [] then
      []
    else
      assert ps == [ps[0]] + ps[1..];
      var r := Insert(ps[0], Normalize(ps[1..]));
      assert |multiset(r)| == |multiset(ps)|;
      r
  }

  lemma {:induction false} InsertNormalized(p: Proposal, sorted: seq<Proposal>)
    requires Normalized(sorted)
    requires forall q :: q in sorted ==> q.submissionOrdinal != p.submissionOrdinal
    ensures Normalized(Insert(p, sorted))
  {
    if sorted == [] || Before(p, sorted[0]) {
    } else {
      var tail := Insert(p, sorted[1..]);
      InsertNormalized(p, sorted[1..]);
      forall q | q in tail
        ensures Before(sorted[0], q)
      {
        assert q in multiset(tail);
        assert q == p || q in sorted[1..];
      }
    }
  }

  lemma {:induction false} NormalizeIsOrdered(ps: seq<Proposal>)
    requires DistinctOrdinals(ps)
    ensures Normalized(Normalize(ps))
  {
    if ps != [] {
      NormalizeIsOrdered(ps[1..]);
      forall q | q in Normalize(ps[1..])
        ensures q.submissionOrdinal != ps[0].submissionOrdinal
      {
        assert q in multiset(ps[1..]);
      }
      InsertNormalized(ps[0], Normalize(ps[1..]));
    }
  }

  /**
    The normal order, over the fields: of two proposals the first is ready earlier, or is ready at the same tick with
    the smaller priority number, or has the same of both and the smaller submission ordinal.
   */
  lemma NormalizeSorts(ps: seq<Proposal>)
    requires DistinctOrdinals(ps)
    ensures
      var r := Normalize(ps);
      forall i, j :: 0 <= i < j < |r| ==>
        || r[i].readyTick < r[j].readyTick
        || (r[i].readyTick == r[j].readyTick && r[i].priority < r[j].priority)
        || (r[i].readyTick == r[j].readyTick && r[i].priority == r[j].priority
            && r[i].submissionOrdinal < r[j].submissionOrdinal)
  {
    NormalizeIsOrdered(ps);
    var r := Normalize(ps);
    assert forall i, j :: 0 <= i < j < |r| ==> Before(r[i], r[j]);
  }

  lemma {:induction false} InsertKeepsIds(p: Proposal, sorted: seq<Proposal>)
    requires DistinctIds(sorted) && forall q :: q in sorted ==> q.proposalId != p.proposalId
    ensures DistinctIds(Insert(p, sorted))
  {
    if sorted != [] && !Before(p, sorted[0]) {
      var tail := Insert(p, sorted[1..]);
      InsertKeepsIds(p, sorted[1..]);
      forall q | q in tail
        ensures sorted[0].proposalId != q.proposalId
      {
        assert q in multiset(tail);
        assert q == p || q in sorted[1..];
      }
    }
  }

  lemma {:induction false} NormalizeKeepsIds(ps: seq<Proposal>)
    requires DistinctIds(ps)
    ensures DistinctIds(Normalize(ps))
  {
    if ps != [] {
      NormalizeKeepsIds(ps[1..]);
      forall q | q in Normalize(ps[1..])
        ensures q.proposalId != ps[0].proposalId
      {
        assert q in multiset(ps[1..]);
      }
      InsertKeepsIds(ps[0], Normalize(ps[1..]));
    }
  }

  lemma FirstIsFirst(a: seq<Proposal>, b: seq<Proposal>)
    requires a != [] && multiset(a) == multiset(b) && Normalized(a) && Normalized(b)
    ensures b != [] && a[0] == b[0]
  {
    assert a[0] in multiset(b);
    assert b[0] in multiset(a);
    var i :| 0 <= i < |b| && b[i] == a[0];
    var j :| 0 <= j < |a| && a[j] == b[0];
    InNormalOrder(b, 0, i);
    InNormalOrder(a, 0, j);
  }

  lemma InNormalOrder(jobs: seq<Proposal>, i: nat, j: nat)
    requires Normalized(jobs) && i < |jobs| && j < |jobs|
    ensures i < j ==> Before(jobs[i], jobs[j])
  {
  }

  /** In a list in normal order, priority and submission ordinal tell the place among jobs of one ready tick. */
  lemma PlaceByPriority(jobs: seq<Proposal>, a: nat, b: nat)
    requires Normalized(jobs) && a < |jobs| && b < |jobs| && jobs[a].readyTick == jobs[b].readyTick
    requires
      || jobs[a].priority < jobs[b].priority
      || (jobs[a].priority == jobs[b].priority && jobs[a].submissionOrdinal < jobs[b].submissionOrdinal)
    ensures a < b
  {
    InNormalOrder(jobs, b, a);
  }

  /** Two sorted arrangements of the same proposals are the same list. */
  lemma {:induction false} NormalOrderUnique(a: seq<Proposal>, b: seq<Proposal>)
    requires multiset(a) == multiset(b) && Normalized(a) && Normalized(b)
    ensures a == b
  {
    assert |multiset(a)| == |multiset(b)|;
    if a != [] {
      FirstIsFirst(a, b);
      assert a == [a[0]] + a[1..] && b == [b[0]] + b[1..];
      assert multiset(a[1..]) == multiset(a) - multiset{a[0]};
      assert multiset(b[1..]) == multiset(b) - multiset{b[0]};
      NormalOrderUnique(a[1..], b[1..]);
    }
  }

  /** The order in which a manifest lists its proposals has no effect on the plan. */
  lemma PermutationInvariance(ps: seq<Proposal>, qs: seq<Proposal>)
    requires DistinctOrdinals(ps) && DistinctOrdinals(qs) && multiset(ps) == multiset(qs)
    ensures Normalize(ps) == Normalize(qs)
  {
    NormalizeIsOrdered(ps);
    NormalizeIsOrdered(qs);
    NormalOrderUnique(Normalize(ps), Normalize(qs));
  }

  // ---------- the greedy rule ----------

  function Max(a: int, b: int): int {
    if a < b then b else a
  }

  /** Index of the earliest-free slot, the lowest one on ties. */
  function MinIndex(row: seq<int>): (k: nat)
    requires row != []
    ensures k < |row|
    ensures forall i :: 0 <= i < |row| ==> row[k] <= row[i]
    ensures forall i :: 0 <= i < k ==> row[k] < row[i]
  {
    if |row| == 1 then
      0
    else
      var k := MinIndex(row[..|row| - 1]);
      if row[|row| - 1] < row[k] then |row| - 1 else k
  }

  /** Jobs that can be placed on the given numbers of units. */
  ghost predicate Workload(jobs: seq<Proposal>, cap: Capacities) {
    && (forall r :: r in cap ==> 0 < cap[r])
    && (forall i :: 0 <= i < |jobs| ==>
          0 <= jobs[i].readyTick && 0 < jobs[i].serviceTicks && jobs[i].resourceClass in cap)
  }

  /** Free times of the slots of resource `r` after the first `n` jobs are placed. */
  function Row(jobs: seq<Proposal>, r: string, capacity: nat, n: nat): (row: seq<int>)
    requires n <= |jobs| && 0 < capacity
    ensures |row| == capacity
  {
    if n == 0 then
      seq(capacity, _ => 0)
    else
      var row := Row(jobs, r, capacity, n - 1);
      if jobs[n - 1].resourceClass != r then
        row
      else
        var k := MinIndex(row);
        row[k := Max(jobs[n - 1].readyTick, row[k]) + jobs[n - 1].serviceTicks]
  }

  function EarliestFree(jobs: seq<Proposal>, r: string, capacity: nat, n: nat): int
    requires n <= |jobs| && 0 < capacity
  {
    var row := Row(jobs, r, capacity, n);
    row[MinIndex(row)]
  }

  function GreedyStart(jobs: seq<Proposal>, cap: Capacities, i: nat): int
    requires i < |jobs| && jobs[i].resourceClass in cap && 0 < cap[jobs[i].resourceClass]
  {
    var r := jobs[i].resourceClass;
    Max(jobs[i].readyTick, EarliestFree(jobs, r, cap[r], i))
  }

  ghost function GreedyStarts(jobs: seq<Proposal>, cap: Capacities): (starts: seq<int>)
    requires Workload(jobs, cap)
    ensures |starts| == |jobs|
    ensures forall i :: 0 <= i < |jobs| ==> starts[i] == GreedyStart(jobs, cap, i)
  {
    seq(|jobs|, i requires 0 <= i < |jobs| => GreedyStart(jobs, cap, i))
  }

  // ---------- schedules in general ----------

  function Finish(jobs: seq<Proposal>, starts: seq<int>, i: nat): int
    requires i < |jobs| && |starts| == |jobs|
  {
    starts[i] + jobs[i].serviceTicks
  }

  predicate Holds(jobs: seq<Proposal>, starts: seq<int>, r: string, i: nat, t: int)
    requires i < |jobs| && |starts| == |jobs|
  {
    jobs[i].resourceClass == r && starts[i] <= t < Finish(jobs, starts, i)
  }

  /** How many of the first `n` jobs hold a unit of `r` at tick `t`. */
  function Active(jobs: seq<Proposal>, starts: seq<int>, r: string, n: nat, t: int): nat
    requires n <= |jobs| && |starts| == |jobs|
  {
    if n == 0 then 0 else
    Active(jobs, starts, r, n - 1, t) + if Holds(jobs, starts, r, n - 1, t) then 1 else 0
  }

  /** How many of the first `n` jobs on `r` finish after tick `t`. */
  function Unfinished(jobs: seq<Proposal>, starts: seq<int>, r: string, n: nat, t: int): nat
    requires n <= |jobs| && |starts| == |jobs|
  {
    if n == 0 then 0 else
    Unfinished(jobs, starts, r, n - 1, t)
    + if jobs[n - 1].resourceClass == r && t < Finish(jobs, starts, n - 1) then 1 else 0
  }

  function BusySlots(row: seq<int>, t: int): (c: nat)
    ensures c <= |row|
  {
    if row == [] then 0 else BusySlots(row[..|row| - 1], t) + if t < row[|row| - 1] then 1 else 0
  }

  ghost predicate RespectsReady(jobs: seq<Proposal>, starts: seq<int>)
    requires |starts| == |jobs|
  {
    forall i :: 0 <= i < |jobs| ==> jobs[i].readyTick <= starts[i]
  }

  /** Jobs of one resource start in normal order. */
  ghost predicate InOrder(jobs: seq<Proposal>, starts: seq<int>)
    requires |starts| == |jobs|
  {
    forall i, j :: 0 <= i < j < |jobs| && jobs[i].resourceClass == jobs[j].resourceClass ==> starts[i] <= starts[j]
  }

  ghost predicate WithinCapacity(jobs: seq<Proposal>, cap: Capacities, starts: seq<int>)
    requires |starts| == |jobs|
  {
    forall r, t :: r in cap ==> Active(jobs, starts, r, |jobs|, t) <= cap[r]
  }

  ghost predicate Feasible(jobs: seq<Proposal>, cap: Capacities, starts: seq<int>) {
    && |starts| == |jobs|
    && RespectsReady(jobs, starts)
    && InOrder(jobs, starts)
    && WithinCapacity(jobs, cap, starts)
  }

  /** Both ceilings of the manifest hold for every job. */
  ghost predicate WithinCeilings(jobs: seq<Proposal>, starts: seq<int>, maxWait: int, maxFinish: int)
    requires |starts| == |jobs|
  {
    forall i :: 0 <= i < |jobs| ==>
      starts[i] - jobs[i].readyTick <= maxWait && Finish(jobs, starts, i) <= maxFinish
  }

  function DecisionAt(jobs: seq<Proposal>, starts: seq<int>, i: nat): QueueDecision
    requires i < |jobs| && |starts| == |jobs|
  {
    QueueDecision(
      jobs[i].proposalId, jobs[i].schedulingClass, jobs[i].resourceClass,
      starts[i], Finish(jobs, starts, i), i + 1, jobs[i].expectedDisposition, false)
  }

  function Decisions(jobs: seq<Proposal>, starts: seq<int>): (ds: seq<QueueDecision>)
    requires |starts| == |jobs|
    ensures |ds| == |jobs|
    ensures forall i :: 0 <= i < |jobs| ==> ds[i] == DecisionAt(jobs, starts, i)
  {
    seq(|jobs|, i requires 0 <= i < |jobs| => DecisionAt(jobs, starts, i))
  }

  // ---------- counting lemmas ----------

  lemma {:induction false} BusySlotsUpdate(row: seq<int>, k: nat, v: int, t: int)
    requires k < |row|
    ensures BusySlots(row[k := v], t) + (if t < row[k] then 1 else 0) == BusySlots(row, t) + (if t < v then 1 else 0)
  {
    var last := |row| - 1;
    if k == last {
      assert row[k := v][..last] == row[..last];
    } else {
      assert row[k := v][..last] == row[..last][k := v];
      BusySlotsUpdate(row[..last], k, v, t);
    }
  }

  lemma {:induction false} BusySlotsNone(row: seq<int>, t: int)
    requires forall i :: 0 <= i < |row| ==> row[i] <= t
    ensures BusySlots(row, t) == 0
  {
    if row != [] {
      BusySlotsNone(row[..|row| - 1], t);
    }
  }

  lemma {:induction false} BusySlotsAll(row: seq<int>, t: int)
    requires forall i :: 0 <= i < |row| ==> t < row[i]
    ensures BusySlots(row, t) == |row|
  {
    if row != [] {
      BusySlotsAll(row[..|row| - 1], t);
    }
  }

  /** Once every job has started, the unfinished jobs are the active ones. */
  lemma {:induction false} ActiveIsUnfinished(jobs: seq<Proposal>, starts: seq<int>, r: string, n: nat, t: int)
    requires n <= |jobs| == |starts|
    requires forall i :: 0 <= i < n && jobs[i].resourceClass == r ==> starts[i] <= t
    ensures Active(jobs, starts, r, n, t) == Unfinished(jobs, starts, r, n, t)
  {
    if n > 0 {
      ActiveIsUnfinished(jobs, starts, r, n - 1, t);
    }
  }

  lemma {:induction false} ActiveMonotone(jobs: seq<Proposal>, starts: seq<int>, r: string, m: nat, n: nat, t: int)
    requires m <= n <= |jobs| == |starts|
    ensures Active(jobs, starts, r, m, t) <= Active(jobs, starts, r, n, t)
  {
    if m < n {
      ActiveMonotone(jobs, starts, r, m, n - 1, t);
    }
  }

  // ---------- optimality ----------

  /** Replacing the earliest slot of a row by a finish. */
  lemma SlotReplaced(row: seq<int>, finish: int, t: int)
    requires row != []
    ensures
      var k := MinIndex(row);
      BusySlots(row[k := finish], t) + (if t < row[k] then 1 else 0)
      == BusySlots(row, t) + if t < finish then 1 else 0
  {
    BusySlotsUpdate(row, MinIndex(row), finish, t);
  }

  /** Placing job `n - 1` replaces one earliest slot by the finish of the job. */
  lemma RowStep(jobs: seq<Proposal>, r: string, capacity: nat, n: nat, t: int)
    requires 0 < n <= |jobs| && 0 < capacity
    ensures
      var free := EarliestFree(jobs, r, capacity, n - 1);
      var before := BusySlots(Row(jobs, r, capacity, n - 1), t);
      var after := BusySlots(Row(jobs, r, capacity, n), t);
      if jobs[n - 1].resourceClass != r then
        after == before
      else
        after + (if t < free then 1 else 0)
        == before + if t < Max(jobs[n - 1].readyTick, free) + jobs[n - 1].serviceTicks then 1 else 0
  {
    if jobs[n - 1].resourceClass == r {
      var row := Row(jobs, r, capacity, n - 1);
      SlotReplaced(row, Max(jobs[n - 1].readyTick, row[MinIndex(row)]) + jobs[n - 1].serviceTicks, t);
    }
  }

  lemma AllBusyBeforeFree(jobs: seq<Proposal>, r: string, capacity: nat, n: nat, t: int)
    requires n <= |jobs| && 0 < capacity && t < EarliestFree(jobs, r, capacity, n)
    ensures BusySlots(Row(jobs, r, capacity, n), t) == capacity
  {
    BusySlotsAll(Row(jobs, r, capacity, n), t);
  }

  /** The greedy slots are never busier than the unfinished jobs of any feasible schedule. */
  lemma {:induction false} GreedySlotsDominated(
    jobs: seq<Proposal>, cap: Capacities, alt: seq<int>, r: string, n: nat, t: int)
    requires Workload(jobs, cap) && Feasible(jobs, cap, alt) && r in cap && n <= |jobs|
    ensures BusySlots(Row(jobs, r, cap[r], n), t) <= Unfinished(jobs, alt, r, n, t) || t < 0
    decreases n, 0
  {
    if n == 0 {
      if 0 <= t {
        BusySlotsNone(Row(jobs, r, cap[r], 0), t);
      }
    } else {
      GreedySlotsDominated(jobs, cap, alt, r, n - 1, t);
      if jobs[n - 1].resourceClass == r {
        GreedyStartMinimal(jobs, cap, alt, n - 1);
      }
      RowStep(jobs, r, cap[r], n, t);
    }
  }

  /** Pointwise optimality: no feasible schedule starts any job earlier than the greedy rule does. */
  lemma {:induction false} GreedyStartMinimal(jobs: seq<Proposal>, cap: Capacities, alt: seq<int>, i: nat)
    requires Workload(jobs, cap) && Feasible(jobs, cap, alt) && i < |jobs|
    ensures GreedyStart(jobs, cap, i) <= alt[i]
    decreases i, 1
  {
    var r := jobs[i].resourceClass;
    var a := alt[i];
    if a < EarliestFree(jobs, r, cap[r], i) {
      // All slots are busy at tick a, so capacity many earlier jobs hold units next to job i.
      AllBusyBeforeFree(jobs, r, cap[r], i, a);
      GreedySlotsDominated(jobs, cap, alt, r, i, a);
      ActiveIsUnfinished(jobs, alt, r, i, a);
      assert Holds(jobs, alt, r, i, a);
      ActiveMonotone(jobs, alt, r, i + 1, |jobs|, a);
      assert false;
    }
  }

  /** A schedule within the ceilings exists only if the greedy one is within them. */
  lemma RejectionIsComplete(jobs: seq<Proposal>, cap: Capacities, alt: seq<int>, maxWait: int, maxFinish: int)
    requires Workload(jobs, cap) && Feasible(jobs, cap, alt)
    requires WithinCeilings(jobs, alt, maxWait, maxFinish)
    ensures WithinCeilings(jobs, GreedyStarts(jobs, cap), maxWait, maxFinish)
  {
    forall i | 0 <= i < |jobs|
      ensures GreedyStart(jobs, cap, i) <= alt[i]
    {
      GreedyStartMinimal(jobs, cap, alt, i);
    }
  }

  // ---------- feasibility and work conservation of the greedy schedule ----------

  lemma {:induction false} EarliestFreeMonotone(jobs: seq<Proposal>, cap: Capacities, r: string, m: nat, n: nat)
    requires Workload(jobs, cap) && r in cap && m <= n <= |jobs|
    ensures EarliestFree(jobs, r, cap[r], m) <= EarliestFree(jobs, r, cap[r], n)
  {
    if m < n {
      EarliestFreeMonotone(jobs, cap, r, m, n - 1);
    }
  }

  lemma GreedyInOrder(jobs: seq<Proposal>, cap: Capacities)
    requires Normalized(jobs) && Workload(jobs, cap)
    ensures InOrder(jobs, GreedyStarts(jobs, cap))
    ensures RespectsReady(jobs, GreedyStarts(jobs, cap))
  {
    var starts := GreedyStarts(jobs, cap);
    forall i, j | 0 <= i < j < |jobs| && jobs[i].resourceClass == jobs[j].resourceClass
      ensures starts[i] <= starts[j]
    {
      assert Before(jobs[i], jobs[j]);
      EarliestFreeMonotone(jobs, cap, jobs[i].resourceClass, i, j);
    }
  }

  /** From the last start on, the slots record exactly the unfinished jobs. */
  lemma {:induction false} SlotsMirrorJobs(jobs: seq<Proposal>, cap: Capacities, r: string, n: nat, t: int)
    requires Workload(jobs, cap) && r in cap && n <= |jobs| && 0 <= t
    requires forall i :: 0 <= i < n && jobs[i].resourceClass == r ==> GreedyStarts(jobs, cap)[i] <= t
    ensures BusySlots(Row(jobs, r, cap[r], n), t) == Unfinished(jobs, GreedyStarts(jobs, cap), r, n, t)
  {
    if n == 0 {
      BusySlotsNone(Row(jobs, r, cap[r], 0), t);
    } else {
      SlotsMirrorJobs(jobs, cap, r, n - 1, t);
      RowStep(jobs, r, cap[r], n, t);
    }
  }

  lemma EarlierStarted(jobs: seq<Proposal>, starts: seq<int>, r: string, n: nat, t: int)
    requires 0 < n <= |jobs| == |starts| && InOrder(jobs, starts) && Holds(jobs, starts, r, n - 1, t)
    ensures forall i :: 0 <= i < n && jobs[i].resourceClass == r ==> starts[i] <= t
  {
    forall i | 0 <= i < n && jobs[i].resourceClass == r
      ensures starts[i] <= t
    {
      assert i < n - 1 ==> starts[i] <= starts[n - 1];
    }
  }

  /** Once all jobs of a resource have started, the slots account for the units they hold. */
  lemma CapacityOnceStarted(jobs: seq<Proposal>, cap: Capacities, r: string, n: nat, t: int)
    requires Workload(jobs, cap) && r in cap && n <= |jobs| && 0 <= t
    requires forall i :: 0 <= i < n && jobs[i].resourceClass == r ==> GreedyStarts(jobs, cap)[i] <= t
    ensures Active(jobs, GreedyStarts(jobs, cap), r, n, t) <= cap[r]
  {
    SlotsMirrorJobs(jobs, cap, r, n, t);
    ActiveIsUnfinished(jobs, GreedyStarts(jobs, cap), r, n, t);
  }

  lemma {:induction false} GreedyCapacity(jobs: seq<Proposal>, cap: Capacities, r: string, n: nat, t: int)
    requires Normalized(jobs) && Workload(jobs, cap) && r in cap && n <= |jobs|
    ensures Active(jobs, GreedyStarts(jobs, cap), r, n, t) <= cap[r]
  {
    if n > 0 {
      GreedyCapacity(jobs, cap, r, n - 1, t);
      if Holds(jobs, GreedyStarts(jobs, cap), r, n - 1, t) {
        GreedyInOrder(jobs, cap);
        EarlierStarted(jobs, GreedyStarts(jobs, cap), r, n, t);
        CapacityOnceStarted(jobs, cap, r, n, t);
      }
    }
  }

  lemma GreedyFeasible(jobs: seq<Proposal>, cap: Capacities)
    requires Normalized(jobs) && Workload(jobs, cap)
    ensures Feasible(jobs, cap, GreedyStarts(jobs, cap))
  {
    GreedyInOrder(jobs, cap);
    forall r, t | r in cap
      ensures Active(jobs, GreedyStarts(jobs, cap), r, |jobs|, t) <= cap[r]
    {
      GreedyCapacity(jobs, cap, r, |jobs|, t);
    }
  }

  // ---------- optimality among all schedules ----------

  ghost function ReadyTicks(jobs: seq<Proposal>): (starts: seq<int>)
    ensures |starts| == |jobs|
    ensures forall i :: 0 <= i < |jobs| ==> starts[i] == jobs[i].readyTick
  {
    seq(|jobs|, i requires 0 <= i < |jobs| => jobs[i].readyTick)
  }

  /** A schedule that respects ready ticks and capacity, in whatever order. */
  ghost predicate Admissible(jobs: seq<Proposal>, cap: Capacities, starts: seq<int>) {
    |starts| == |jobs| && RespectsReady(jobs, starts) && WithinCapacity(jobs, cap, starts)
  }

  /** No admissible schedule starts any job earlier than the greedy one. */
  ghost predicate GreedyIsOptimal(jobs: seq<Proposal>, cap: Capacities)
    requires Workload(jobs, cap)
  {
    forall alt, i :: Admissible(jobs, cap, alt) && 0 <= i < |jobs| ==> GreedyStarts(jobs, cap)[i] <= alt[i]
  }

  /** A tick by which job `first` and the ready ticks of the first `n` jobs are over. */
  ghost function QuietTick(jobs: seq<Proposal>, first: nat, n: nat): (t: int)
    requires first < |jobs| && n <= |jobs|
    ensures jobs[first].readyTick + jobs[first].serviceTicks <= t
    ensures forall i :: 0 <= i < n ==> jobs[i].readyTick <= t
  {
    if n == 0 then
      jobs[first].readyTick + jobs[first].serviceTicks
    else
      Max(jobs[n - 1].readyTick, QuietTick(jobs, first, n - 1))
  }

  ghost function TotalService(jobs: seq<Proposal>, n: nat): int
    requires n <= |jobs|
  {
    if n == 0 then 0 else TotalService(jobs, n - 1) + jobs[n - 1].serviceTicks
  }

  lemma {:induction false} TotalServiceGrows(jobs: seq<Proposal>, m: nat, n: nat)
    requires m <= n <= |jobs| && forall i :: 0 <= i < |jobs| ==> 0 < jobs[i].serviceTicks
    ensures TotalService(jobs, m) <= TotalService(jobs, n)
  {
    if m < n {
      TotalServiceGrows(jobs, m, n - 1);
    }
  }

  /** Job `first` starts when it is ready; the others run one after another when everything is quiet. */
  ghost function PreferredStarts(jobs: seq<Proposal>, first: nat): (starts: seq<int>)
    requires first < |jobs|
    ensures |starts| == |jobs|
  {
    seq(|jobs|, i requires 0 <= i < |jobs| =>
      if i == first then jobs[i].readyTick else QuietTick(jobs, first, |jobs|) + TotalService(jobs, i))
  }

  lemma {:induction false} ActiveAtMostOne(jobs: seq<Proposal>, starts: seq<int>, r: string, n: nat, t: int)
    requires n <= |jobs| == |starts|
    requires forall i, j :: 0 <= i < j < n ==> !(Holds(jobs, starts, r, i, t) && Holds(jobs, starts, r, j, t))
    ensures Active(jobs, starts, r, n, t) <= 1
    ensures (forall i :: 0 <= i < n ==> !Holds(jobs, starts, r, i, t)) ==> Active(jobs, starts, r, n, t) == 0
  {
    if n > 0 {
      ActiveAtMostOne(jobs, starts, r, n - 1, t);
    }
  }

  lemma PreferredIsAdmissible(jobs: seq<Proposal>, cap: Capacities, first: nat)
    requires Workload(jobs, cap) && first < |jobs|
    ensures Admissible(jobs, cap, PreferredStarts(jobs, first))
  {
    var starts := PreferredStarts(jobs, first);
    forall i | 0 <= i < |jobs|
      ensures jobs[i].readyTick <= starts[i]
    {
      TotalServiceGrows(jobs, 0, i);
    }
    forall r, t | r in cap
      ensures Active(jobs, starts, r, |jobs|, t) <= cap[r]
    {
      forall i, j | 0 <= i < j < |jobs|
        ensures !(Holds(jobs, starts, r, i, t) && Holds(jobs, starts, r, j, t))
      {
        TotalServiceGrows(jobs, 0, i);
        TotalServiceGrows(jobs, i + 1, j);
      }
      ActiveAtMostOne(jobs, starts, r, |jobs|, t);
    }
  }

  /**
    The greedy schedule is pointwise minimal among all schedules, overtaking included, iff the jobs can all start
    when they are ready.
   */
  lemma OptimalExactlyWhen(jobs: seq<Proposal>, cap: Capacities)
    requires Normalized(jobs) && Workload(jobs, cap)
    ensures GreedyIsOptimal(jobs, cap) <==> WithinCapacity(jobs, cap, ReadyTicks(jobs))
  {
    var greedy := GreedyStarts(jobs, cap);
    if GreedyIsOptimal(jobs, cap) {
      forall i | 0 <= i < |jobs|
        ensures greedy[i] == jobs[i].readyTick
      {
        PreferredIsAdmissible(jobs, cap, i);
        assert greedy[i] <= PreferredStarts(jobs, i)[i];
      }
      GreedyFeasible(jobs, cap);
      assert greedy == ReadyTicks(jobs);
    }
    if WithinCapacity(jobs, cap, ReadyTicks(jobs)) {
      ReadyIsFeasible(jobs, cap);
      forall alt, i | Admissible(jobs, cap, alt) && 0 <= i < |jobs|
        ensures greedy[i] <= alt[i]
      {
        GreedyStartMinimal(jobs, cap, ReadyTicks(jobs), i);
      }
    }
  }

  lemma ReadyIsFeasible(jobs: seq<Proposal>, cap: Capacities)
    requires Normalized(jobs) && WithinCapacity(jobs, cap, ReadyTicks(jobs))
    ensures Feasible(jobs, cap, ReadyTicks(jobs))
  {
    forall i, j | 0 <= i < j < |jobs|
      ensures jobs[i].readyTick <= jobs[j].readyTick
    {
      assert Before(jobs[i], jobs[j]);
    }
  }

  /** Jobs behind a job that is still waiting hold nothing. */
  lemma {:induction false} ActiveBehindWaiting(jobs: seq<Proposal>, starts: seq<int>, p: nat, n: nat, t: int)
    requires p <= n <= |jobs| == |starts| && p < |jobs|
    requires InOrder(jobs, starts) && t < starts[p]
    ensures Active(jobs, starts, jobs[p].resourceClass, n, t) == Active(jobs, starts, jobs[p].resourceClass, p, t)
  {
    if p < n {
      ActiveBehindWaiting(jobs, starts, p, n - 1, t);
      assert jobs[n - 1].resourceClass == jobs[p].resourceClass ==> starts[p] <= starts[n - 1];
    }
  }

  lemma WorkConservingLast(jobs: seq<Proposal>, cap: Capacities, r: string, n: nat, t: int)
    requires Workload(jobs, cap) && r in cap && n <= |jobs|
    requires 0 <= t < EarliestFree(jobs, r, cap[r], n)
    requires forall p :: 0 <= p < n && jobs[p].resourceClass == r ==> GreedyStarts(jobs, cap)[p] <= t
    ensures Active(jobs, GreedyStarts(jobs, cap), r, n, t) == cap[r]
  {
    SlotsMirrorJobs(jobs, cap, r, n, t);
    ActiveIsUnfinished(jobs, GreedyStarts(jobs, cap), r, n, t);
    AllBusyBeforeFree(jobs, r, cap[r], n, t);
  }

  /** Whenever job `i` is ready but not started, earlier jobs hold every unit of its resource. */
  lemma {:induction false} WorkConserving(jobs: seq<Proposal>, cap: Capacities, i: nat, t: int)
    requires Normalized(jobs) && Workload(jobs, cap) && i < |jobs|
    requires jobs[i].readyTick <= t < GreedyStart(jobs, cap, i)
    ensures Active(jobs, GreedyStarts(jobs, cap), jobs[i].resourceClass, i, t) == cap[jobs[i].resourceClass]
    decreases i
  {
    var starts := GreedyStarts(jobs, cap);
    var r := jobs[i].resourceClass;
    if p: nat :| p < i && jobs[p].resourceClass == r && t < starts[p] {
      // An earlier job of the resource is waiting as well.
      assert Before(jobs[p], jobs[i]);
      WorkConserving(jobs, cap, p, t);
      GreedyInOrder(jobs, cap);
      ActiveBehindWaiting(jobs, starts, p, i, t);
    } else {
      WorkConservingLast(jobs, cap, r, i, t);
    }
  }

  // ---------- the arithmetic bound on waiting ----------

  function ServiceBefore(jobs: seq<Proposal>, r: string, n: nat): int
    requires n <= |jobs|
  {
    if n == 0 then 0 else
    ServiceBefore(jobs, r, n - 1) + if jobs[n - 1].resourceClass == r then jobs[n - 1].serviceTicks else 0
  }

  /** Length of the overlap of job `i` with the ticks from `lo` up to `hi`. */
  function Overlap(jobs: seq<Proposal>, starts: seq<int>, i: nat, lo: int, hi: int): int
    requires i < |jobs| && |starts| == |jobs|
  {
    Max(0, (if Finish(jobs, starts, i) < hi then Finish(jobs, starts, i) else hi) - Max(lo, starts[i]))
  }

  function WorkWithin(jobs: seq<Proposal>, starts: seq<int>, r: string, n: nat, lo: int, hi: int): int
    requires n <= |jobs| && |starts| == |jobs|
  {
    if n == 0 then 0 else
    WorkWithin(jobs, starts, r, n - 1, lo, hi)
    + if jobs[n - 1].resourceClass == r then Overlap(jobs, starts, n - 1, lo, hi) else 0
  }

  lemma {:induction false} WorkWithinNextTick(
      jobs: seq<Proposal>, starts: seq<int>, r: string, n: nat, lo: int, hi: int)
    requires n <= |jobs| == |starts| && lo <= hi
    requires forall i :: 0 <= i < n ==> 0 < jobs[i].serviceTicks
    ensures WorkWithin(jobs, starts, r, n, lo, hi + 1)
      == WorkWithin(jobs, starts, r, n, lo, hi) + Active(jobs, starts, r, n, hi)
  {
    if n > 0 {
      WorkWithinNextTick(jobs, starts, r, n - 1, lo, hi);
    }
  }

  lemma {:induction false} WorkWithinBounds(jobs: seq<Proposal>, starts: seq<int>, r: string, n: nat, lo: int, hi: int)
    requires n <= |jobs| == |starts|
    requires forall i :: 0 <= i < n ==> 0 < jobs[i].serviceTicks
    ensures WorkWithin(jobs, starts, r, n, lo, hi) <= ServiceBefore(jobs, r, n)
    ensures hi <= lo ==> WorkWithin(jobs, starts, r, n, lo, hi) == 0
  {
    if n > 0 {
      WorkWithinBounds(jobs, starts, r, n - 1, lo, hi);
    }
  }

  lemma {:induction false} WaitFillsCapacity(jobs: seq<Proposal>, cap: Capacities, i: nat, hi: int)
    requires Normalized(jobs) && Workload(jobs, cap) && i < |jobs|
    requires jobs[i].readyTick <= hi <= GreedyStart(jobs, cap, i)
    ensures cap[jobs[i].resourceClass] * (hi - jobs[i].readyTick)
         == WorkWithin(jobs, GreedyStarts(jobs, cap), jobs[i].resourceClass, i, jobs[i].readyTick, hi)
    decreases hi - jobs[i].readyTick
  {
    var starts := GreedyStarts(jobs, cap);
    var r := jobs[i].resourceClass;
    if hi == jobs[i].readyTick {
      WorkWithinBounds(jobs, starts, r, i, hi, hi);
    } else {
      WaitFillsCapacity(jobs, cap, i, hi - 1);
      WorkConserving(jobs, cap, i, hi - 1);
      WorkWithinNextTick(jobs, starts, r, i, jobs[i].readyTick, hi - 1);
      var c, d := cap[r], hi - 1 - jobs[i].readyTick;
      assert c * (d + 1) == c * d + c;
    }
  }

  /** Capacity times the wait of a job is at most the service demanded by earlier jobs of its resource. */
  lemma WaitBound(jobs: seq<Proposal>, cap: Capacities, i: nat)
    requires Normalized(jobs) && Workload(jobs, cap) && i < |jobs|
    ensures cap[jobs[i].resourceClass] * (GreedyStart(jobs, cap, i) - jobs[i].readyTick)
         <= ServiceBefore(jobs, jobs[i].resourceClass, i)
  {
    var s := GreedyStart(jobs, cap, i);
    WaitFillsCapacity(jobs, cap, i, s);
    WorkWithinBounds(jobs, GreedyStarts(jobs, cap), jobs[i].resourceClass, i, jobs[i].readyTick, s);
  }

  // ---------- the reference planner ----------

  /** `{item.resource_class: item.capacity for item in manifest.resources}` */
  function CapacitiesOf(specs: seq<ResourceSpec>): (cap: Capacities)
    requires forall spec :: spec in specs ==> ValidResource(spec)
    ensures cap.Keys == set spec | spec in specs :: spec.resourceClass
    ensures forall r :: r in cap ==> 0 < cap[r]
  {
    if specs == [] then
      map[]
    else
      var last := |specs| - 1;
      assert specs == specs[..last] + [specs[last]];
      assert ValidResource(specs[last]);
      CapacitiesOf(specs[..last])[specs[last].resourceClass := specs[last].capacity]
  }

  lemma ManifestWorkload(m: Manifest)
    requires ValidManifest(m)
    ensures Normalized(Normalize(m.proposals))
    ensures Workload(Normalize(m.proposals), CapacitiesOf(m.resources))
    ensures CapacitiesOf(m.resources).Keys == RESOURCE_CLASSES
  {
    var jobs := Normalize(m.proposals);
    NormalizeIsOrdered(m.proposals);
    forall i | 0 <= i < |jobs|
      ensures ValidProposal(m, jobs[i])
    {
      assert jobs[i] in multiset(m.proposals);
    }
  }

  /** The normalized jobs of a manifest and the start ticks that the greedy rule gives them. */
  ghost function Jobs(m: Manifest): seq<Proposal> {
    Normalize(m.proposals)
  }

  ghost function PlannedStarts(m: Manifest): (starts: seq<int>)
    requires ValidManifest(m)
    ensures |starts| == |Jobs(m)|
  {
    ManifestWorkload(m);
    GreedyStarts(Jobs(m), CapacitiesOf(m.resources))
  }

  /** The answer for a workload: the greedy decisions, or a ceiling error that some job justifies. */
  ghost predicate IsPlan(
    jobs: seq<Proposal>, starts: seq<int>, maxWait: int, maxFinish: int, r: Result<seq<QueueDecision>, PlanError>)
    requires |starts| == |jobs|
  {
    match r
    case Success(decisions) =>
      WithinCeilings(jobs, starts, maxWait, maxFinish) && decisions == Decisions(jobs, starts)
    case Failure(ManifestInvalid) => false
    case Failure(StarvationCeilingExceeded) =>
      exists i :: 0 <= i < |jobs| && maxWait < starts[i] - jobs[i].readyTick
    case Failure(FinishCeilingExceeded) =>
      exists i :: 0 <= i < |jobs| && maxFinish < Finish(jobs, starts, i)
  }

  ghost predicate IsPlanFor(m: Manifest, r: Result<seq<QueueDecision>, PlanError>) {
    if ValidManifest(m) then
      IsPlan(Jobs(m), PlannedStarts(m), m.maxWaitTicks, m.maxFinishTick, r)
    else
      r == Failure(ManifestInvalid)
  }

  predicate JobWithin(jobs: seq<Proposal>, starts: seq<int>, maxWait: int, maxFinish: int, i: nat)
    requires i < |jobs| == |starts|
  {
    starts[i] - jobs[i].readyTick <= maxWait && Finish(jobs, starts, i) <= maxFinish
  }

  /** Job `i` is the first in normal order to break a ceiling, and the error names the one it breaks, the wait first. */
  ghost predicate FirstBreach(
    jobs: seq<Proposal>, starts: seq<int>, maxWait: int, maxFinish: int, i: nat, error: PlanError)
    requires i < |jobs| == |starts|
  {
    && (forall j :: 0 <= j < i ==> JobWithin(jobs, starts, maxWait, maxFinish, j))
    && !JobWithin(jobs, starts, maxWait, maxFinish, i)
    && error == if maxWait < starts[i] - jobs[i].readyTick then StarvationCeilingExceeded else FinishCeilingExceeded
  }

  ghost predicate SlotsAt(jobs: seq<Proposal>, capacities: Capacities, slots: map<string, seq<int>>, n: nat)
    requires Workload(jobs, capacities) && n <= |jobs|
  {
    && slots.Keys == capacities.Keys
    && forall r :: r in capacities ==> slots[r] == Row(jobs, r, capacities[r], n)
  }

  function FreshSlots(jobs: seq<Proposal>, capacities: Capacities): (slots: map<string, seq<int>>)
    requires Workload(jobs, capacities)
    ensures SlotsAt(jobs, capacities, slots, 0)
  {
    map r | r in capacities :: seq(capacities[r], _ => 0)
  }

  /** Books the next job on the earliest-free slot of its resource. */
  method Book(jobs: seq<Proposal>, capacities: Capacities, slots: map<string, seq<int>>, n: nat)
    returns (start: int, updated: map<string, seq<int>>)
    requires Workload(jobs, capacities) && n < |jobs| && SlotsAt(jobs, capacities, slots, n)
    ensures start == GreedyStart(jobs, capacities, n)
    ensures SlotsAt(jobs, capacities, updated, n + 1)
  {
    var row := slots[jobs[n].resourceClass];
    var slotIndex := MinIndex(row);
    start := Max(jobs[n].readyTick, row[slotIndex]);
    updated := slots[jobs[n].resourceClass := row[slotIndex := start + jobs[n].serviceTicks]];
  }

  method PlaceJobs(
    jobs: seq<Proposal>, capacities: Capacities, maxWait: int, maxFinish: int, ghost starts: seq<int>)
    returns (r: Result<seq<QueueDecision>, PlanError>)
    requires Workload(jobs, capacities) && |starts| == |jobs|
    requires forall i {:trigger GreedyStart(jobs, capacities, i)} :: 0 <= i < |jobs| ==>
      starts[i] == GreedyStart(jobs, capacities, i)
    ensures IsPlan(jobs, starts, maxWait, maxFinish, r)
    ensures r.Failure? ==> exists i :: 0 <= i < |jobs| && FirstBreach(jobs, starts, maxWait, maxFinish, i, r.error)
  {
    var slots := FreshSlots(jobs, capacities);
    var decisions: seq<QueueDecision> := [];
    var n := 0;
    while n < |jobs|
      invariant n <= |jobs|
      invariant SlotsAt(jobs, capacities, slots, n)
      invariant |decisions| == n
      invariant forall i :: 0 <= i < n ==> decisions[i] == DecisionAt(jobs, starts, i)
      invariant forall i :: 0 <= i < n ==> JobWithin(jobs, starts, maxWait, maxFinish, i)
    {
      var start;
      start, slots := Book(jobs, capacities, slots, n);
      assert start == starts[n];
      var finish := start + jobs[n].serviceTicks;
      if maxWait < start - jobs[n].readyTick {
        assert FirstBreach(jobs, starts, maxWait, maxFinish, n, StarvationCeilingExceeded);
        return Failure(StarvationCeilingExceeded);
      }
      if maxFinish < finish {
        assert FirstBreach(jobs, starts, maxWait, maxFinish, n, FinishCeilingExceeded);
        return Failure(FinishCeilingExceeded);
      }
      decisions := decisions + [QueueDecision(
        jobs[n].proposalId, jobs[n].schedulingClass, jobs[n].resourceClass,
        start, finish, n + 1, jobs[n].expectedDisposition, false)];
      n := n + 1;
    }
    forall i | 0 <= i < |jobs|
      ensures starts[i] - jobs[i].readyTick <= maxWait && Finish(jobs, starts, i) <= maxFinish
    {
      assert JobWithin(jobs, starts, maxWait, maxFinish, i);
    }
    return Success(decisions);
  }

  method PlanWithReferenceScheduler(m: Manifest) returns (r: Result<seq<QueueDecision>, PlanError>)
    ensures IsPlanFor(m, r)
    ensures ValidManifest(m) && r.Failure? ==>
      exists i :: 0 <= i < |Jobs(m)| &&
        FirstBreach(Jobs(m), PlannedStarts(m), m.maxWaitTicks, m.maxFinishTick, i, r.error)
  {
    if !ValidManifest(m) {
      return Failure(ManifestInvalid);
    }
    ManifestWorkload(m);
    r := PlaceJobs(
      Normalize(m.proposals), CapacitiesOf(m.resources), m.maxWaitTicks, m.maxFinishTick, PlannedStarts(m));
  }
}
