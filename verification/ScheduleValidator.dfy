/**
  The independent trace checker and the equivalence gate (simulation_schedule_validator.py).
 */
module ScheduleValidator {
  import opened Wrappers
  import opened ScheduleCore
  import SimPyAdapter

  // headerValid is the verdict of the checks on bindings, revisions, the semantics hash and the flags.
  datatype Trace = Trace(decisions: seq<QueueDecision>, headerValid: bool)

  datatype TraceError =
    | HeaderInvalid
    | DecisionCountInvalid
    | DecisionBindingInvalid(proposalId: string)
    | OrdinalInvalid(proposalId: string)
    | ProposalSemanticsInvalid(proposalId: string)
    | TimingInvalid(proposalId: string)
    | CapacityExceeded(resourceClass: string)

  datatype Interval = Interval(start: int, finish: int)

  // ---------- the endpoint sweep ----------

  /** `sum(start <= point < finish for start, finish in intervals)` */
  function Covering(intervals: seq<Interval>, t: int): nat {
    if intervals == [] then 0 else
    var last := intervals[|intervals| - 1];
    Covering(intervals[..|intervals| - 1], t) + if last.start <= t < last.finish then 1 else 0
  }

  lemma CoveringAppend(front: seq<Interval>, last: Interval, t: int)
    ensures Covering(front + [last], t) == Covering(front, t) + if last.start <= t < last.finish then 1 else 0
  {
    assert (front + [last])[..|front|] == front;
  }

  /** Capacity suffices at every tick. */
  ghost predicate Fits(intervals: seq<Interval>, capacity: int) {
    forall t :: Covering(intervals, t) <= capacity
  }

  ghost predicate IsEndpoint(intervals: seq<Interval>, t: int) {
    exists k :: 0 <= k < |intervals| && (intervals[k].start == t || intervals[k].finish == t)
  }

  lemma {:induction false} CoveringSubset(intervals: seq<Interval>, t: int, p: int)
    requires forall k :: 0 <= k < |intervals| && intervals[k].start <= t < intervals[k].finish ==>
      intervals[k].start <= p < intervals[k].finish
    ensures Covering(intervals, t) <= Covering(intervals, p)
  {
    if intervals != [] {
      CoveringSubset(intervals[..|intervals| - 1], t, p);
    }
  }

  /** The latest start at or before `t` among the intervals that cover `t`. */
  lemma {:induction false} LatestCoveringStart(intervals: seq<Interval>, t: int, n: nat) returns (p: int)
    requires n <= |intervals|
    ensures p <= t
    ensures p == t || exists k :: 0 <= k < |intervals| && intervals[k].start == p
    ensures forall k :: 0 <= k < n && intervals[k].start <= t < intervals[k].finish ==> intervals[k].start <= p
    ensures (exists k :: 0 <= k < n && intervals[k].start <= t < intervals[k].finish) ==>
      exists k :: 0 <= k < |intervals| && intervals[k].start == p
  {
    if n == 0 {
      return t;
    }
    p := LatestCoveringStart(intervals, t, n - 1);
    if intervals[n - 1].start <= t < intervals[n - 1].finish {
      if p < intervals[n - 1].start || !(exists k :: 0 <= k < n - 1 && intervals[k].start <= t < intervals[k].finish) {
        p := intervals[n - 1].start;
      }
    }
  }

  lemma {:induction false} NoneCovering(intervals: seq<Interval>, t: int)
    requires forall k :: 0 <= k < |intervals| ==> !(intervals[k].start <= t < intervals[k].finish)
    ensures Covering(intervals, t) == 0
  {
    if intervals != [] {
      NoneCovering(intervals[..|intervals| - 1], t);
    }
  }

  /** Looking at endpoints only is enough: the capacity holds there iff it holds at every tick. */
  lemma SweepIsExact(intervals: seq<Interval>, capacity: int)
    requires intervals != [] || 0 <= capacity
    ensures (forall p :: IsEndpoint(intervals, p) ==> Covering(intervals, p) <= capacity)
       <==> Fits(intervals, capacity)
  {
    if forall p :: IsEndpoint(intervals, p) ==> Covering(intervals, p) <= capacity {
      forall t
        ensures Covering(intervals, t) <= capacity
      {
        if exists k :: 0 <= k < |intervals| && intervals[k].start <= t < intervals[k].finish {
          var p := LatestCoveringStart(intervals, t, |intervals|);
          assert IsEndpoint(intervals, p);
          CoveringSubset(intervals, t, p);
        } else {
          NoneCovering(intervals, t);
          if intervals != [] {
            assert IsEndpoint(intervals, intervals[0].start);
          }
        }
      }
    }
  }

  method CapacityHolds(intervals: seq<Interval>, capacity: int) returns (holds: bool)
    requires intervals != []
    ensures holds <==> Fits(intervals, capacity)
  {
    SweepIsExact(intervals, capacity);
    for k := 0 to |intervals|
      invariant forall i :: 0 <= i < k ==>
        Covering(intervals, intervals[i].start) <= capacity && Covering(intervals, intervals[i].finish) <= capacity
    {
      assert IsEndpoint(intervals, intervals[k].start) && IsEndpoint(intervals, intervals[k].finish);
      if capacity < Covering(intervals, intervals[k].start) || capacity < Covering(intervals, intervals[k].finish) {
        return false;
      }
    }
    return true;
  }

  // ---------- what an accepted trace is ----------

  /** `{item.proposal_id: item for item in manifest.proposals}` */
  function ById(ps: seq<Proposal>): (byId: map<string, Proposal>)
    ensures byId.Keys == set p | p in ps :: p.proposalId
    ensures forall id :: id in byId ==> byId[id] in ps && byId[id].proposalId == id
  {
    if ps == [] then
      map[]
    else
      assert ps == ps[..|ps| - 1] + [ps[|ps| - 1]];
      ById(ps[..|ps| - 1])[ps[|ps| - 1].proposalId := ps[|ps| - 1]]
  }

  /** `capacities.get(resource_class, 0)` */
  function CapacityFor(specs: seq<ResourceSpec>, r: string): int {
    if specs == [] then 0 else
    var last := specs[|specs| - 1];
    if last.resourceClass == r then last.capacity else CapacityFor(specs[..|specs| - 1], r)
  }

  predicate SemanticsMatch(d: QueueDecision, p: Proposal) {
    && d.schedulingClass == p.schedulingClass
    && d.resourceClass == p.resourceClass
    && d.expectedDisposition == p.expectedDisposition
    && !d.kernelAcceptance
  }

  predicate TimingValid(m: Manifest, d: QueueDecision, p: Proposal) {
    && p.readyTick <= d.plannedStartTick
    && d.plannedFinishTick - d.plannedStartTick == p.serviceTicks
    && d.plannedStartTick - p.readyTick <= m.maxWaitTicks
    && d.plannedFinishTick <= m.maxFinishTick
  }

  predicate Bound(byId: map<string, Proposal>, decisions: seq<QueueDecision>, i: nat)
    requires i < |decisions|
  {
    && decisions[i].proposalId in byId
    && forall j :: 0 <= j < i ==> decisions[j].proposalId != decisions[i].proposalId
  }

  predicate RowValid(m: Manifest, byId: map<string, Proposal>, decisions: seq<QueueDecision>, i: nat)
    requires i < |decisions|
  {
    && Bound(byId, decisions, i)
    && decisions[i].deterministicOrdinal == i + 1
    && SemanticsMatch(decisions[i], byId[decisions[i].proposalId])
    && TimingValid(m, decisions[i], byId[decisions[i].proposalId])
  }

  function IntervalOf(d: QueueDecision): Interval {
    Interval(d.plannedStartTick, d.plannedFinishTick)
  }

  /** The intervals of those of the first `n` decisions that are on resource `r`. */
  function IntervalsOf(decisions: seq<QueueDecision>, r: string, n: nat): seq<Interval>
    requires n <= |decisions|
  {
    if n == 0 then [] else
    var front := IntervalsOf(decisions, r, n - 1);
    if decisions[n - 1].resourceClass == r then front + [IntervalOf(decisions[n - 1])] else front
  }

  /** A trace that is a schedule of the manifest: every tick of every resource respects capacity. */
  ghost predicate IsScheduleOf(m: Manifest, trace: Trace) {
    && trace.headerValid
    && |trace.decisions| == |m.proposals|
    && (forall i :: 0 <= i < |trace.decisions| ==> RowValid(m, ById(m.proposals), trace.decisions, i))
    && CapacityRespected(m, trace.decisions)
  }

  // ---------- the checker ----------

  method CheckRow(m: Manifest, byId: map<string, Proposal>, decisions: seq<QueueDecision>, i: nat, seen: set<string>)
    returns (errors: seq<TraceError>)
    requires i < |decisions|
    requires seen == set j | 0 <= j < i && decisions[j].proposalId in byId :: decisions[j].proposalId
    ensures errors == [] <==> RowValid(m, byId, decisions, i)
    ensures DecisionBindingInvalid(decisions[i].proposalId) in errors <==> !Bound(byId, decisions, i)
  {
    var d := decisions[i];
    if d.proposalId !in byId || d.proposalId in seen {
      return [DecisionBindingInvalid(d.proposalId)];
    }
    var p := byId[d.proposalId];
    assert forall j :: 0 <= j < i && decisions[j].proposalId == d.proposalId ==> d.proposalId in seen;
    errors := [];
    if d.deterministicOrdinal != i + 1 {
      errors := errors + [OrdinalInvalid(d.proposalId)];
    }
    if !SemanticsMatch(d, p) {
      errors := errors + [ProposalSemanticsInvalid(d.proposalId)];
    }
    if !TimingValid(m, d, p) {
      errors := errors + [TimingInvalid(d.proposalId)];
    }
  }

  ghost predicate SeenAre(byId: map<string, Proposal>, decisions: seq<QueueDecision>, i: nat, seen: set<string>)
    requires i <= |decisions|
  {
    seen == set j | 0 <= j < i && decisions[j].proposalId in byId :: decisions[j].proposalId
  }

  ghost predicate Collected(decisions: seq<QueueDecision>, i: nat, intervals: map<string, seq<Interval>>)
    requires i <= |decisions|
  {
    && (forall r :: r in intervals <==> IntervalsOf(decisions, r, i) != [])
    && (forall r :: r in intervals ==> intervals[r] == IntervalsOf(decisions, r, i))
  }

  method ConsumeRow(
    m: Manifest, byId: map<string, Proposal>, decisions: seq<QueueDecision>, i: nat,
    seen: set<string>, intervals: map<string, seq<Interval>>)
    returns (found: seq<TraceError>, nowSeen: set<string>, longer: map<string, seq<Interval>>)
    requires i < |decisions|
    requires SeenAre(byId, decisions, i, seen) && forall r :: r in intervals ==> intervals[r] != []
    ensures found == [] <==> RowValid(m, byId, decisions, i)
    ensures SeenAre(byId, decisions, i + 1, nowSeen) && forall r :: r in longer ==> longer[r] != []
    ensures found == [] && Collected(decisions, i, intervals) ==> Collected(decisions, i + 1, longer)
  {
    var d := decisions[i];
    found := CheckRow(m, byId, decisions, i, seen);
    nowSeen, longer := seen, intervals;
    if DecisionBindingInvalid(d.proposalId) !in found {
      nowSeen := seen + {d.proposalId};
      var sofar := if d.resourceClass in intervals then intervals[d.resourceClass] else [];
      longer := intervals[d.resourceClass := sofar + [IntervalOf(d)]];
    }
  }

  ghost predicate RowsValid(m: Manifest, byId: map<string, Proposal>, decisions: seq<QueueDecision>, n: nat)
    requires n <= |decisions|
  {
    forall j :: 0 <= j < n ==> RowValid(m, byId, decisions, j)
  }

  lemma RowsValidNext(m: Manifest, byId: map<string, Proposal>, decisions: seq<QueueDecision>, n: nat)
    requires n < |decisions|
    ensures RowsValid(m, byId, decisions, n + 1) <==>
      RowsValid(m, byId, decisions, n) && RowValid(m, byId, decisions, n)
  {
  }

  method CheckRows(m: Manifest, byId: map<string, Proposal>, decisions: seq<QueueDecision>)
    returns (valid: bool, errors: seq<TraceError>, intervals: map<string, seq<Interval>>)
    ensures valid <==> errors == []
    ensures valid <==> RowsValid(m, byId, decisions, |decisions|)
    ensures forall r :: r in intervals ==> intervals[r] != []
    ensures valid ==> Collected(decisions, |decisions|, intervals)
  {
    var seen: set<string> := {};
    valid, errors, intervals := true, [], map[];
    for i := 0 to |decisions|
      invariant SeenAre(byId, decisions, i, seen)
      invariant valid <==> errors == []
      invariant valid <==> RowsValid(m, byId, decisions, i)
      invariant forall r :: r in intervals ==> intervals[r] != []
      invariant valid ==> Collected(decisions, i, intervals)
    {
      var found;
      found, seen, intervals := ConsumeRow(m, byId, decisions, i, seen, intervals);
      RowsValidNext(m, byId, decisions, i);
      if found != [] {
        valid, errors := false, errors + found;
      }
    }
  }

  /** `validate_scheduler_trace` accepts exactly the schedules of the manifest. */
  method ValidateSchedulerTrace(m: Manifest, trace: Trace) returns (errors: seq<TraceError>)
    ensures errors == [] <==> IsScheduleOf(m, trace)
  {
    var rowsValid, rowErrors, intervals := CheckRows(m, ById(m.proposals), trace.decisions);
    var capacityErrors := CheckCapacities(m, intervals);
    var headErrors := (if trace.headerValid then [] else [HeaderInvalid])
      + (if |trace.decisions| == |m.proposals| then [] else [DecisionCountInvalid]);
    errors := headErrors + rowErrors + capacityErrors;
    assert |errors| == |headErrors| + |rowErrors| + |capacityErrors|;
  }

  /** No tick of any resource in use has more decisions running than the resource has units. */
  ghost predicate CapacityRespected(m: Manifest, decisions: seq<QueueDecision>) {
    forall r :: IntervalsOf(decisions, r, |decisions|) != [] ==>
      Fits(IntervalsOf(decisions, r, |decisions|), CapacityFor(m.resources, r))
  }

  method CheckCapacities(m: Manifest, intervals: map<string, seq<Interval>>) returns (errors: seq<TraceError>)
    requires forall r :: r in intervals ==> intervals[r] != []
    ensures errors == [] <==>
      forall r :: r in intervals ==> Fits(intervals[r], CapacityFor(m.resources, r))
  {
    errors := [];
    var rest := intervals.Keys;
    while rest != {}
      invariant rest <= intervals.Keys
      invariant errors == [] <==>
        forall r :: r in intervals.Keys - rest ==> Fits(intervals[r], CapacityFor(m.resources, r))
      decreases |rest|
    {
      var r :| r in rest;
      var holds := CapacityHolds(intervals[r], CapacityFor(m.resources, r));
      if !holds {
        errors := errors + [CapacityExceeded(r)];
      }
      assert intervals.Keys - (rest - {r}) == (intervals.Keys - rest) + {r};
      rest := rest - {r};
    }
  }

  // ---------- the planners against the checker ----------

  lemma ByIdFinds(ps: seq<Proposal>, p: Proposal)
    requires DistinctIds(ps) && p in ps
    ensures p.proposalId in ById(ps) && ById(ps)[p.proposalId] == p
  {
  }

  lemma {:induction false} CapacityForIsCapacity(specs: seq<ResourceSpec>, r: string)
    requires forall spec :: spec in specs ==> ValidResource(spec)
    ensures CapacityFor(specs, r) == if r in CapacitiesOf(specs) then CapacitiesOf(specs)[r] else 0
  {
    if specs != [] {
      assert specs == specs[..|specs| - 1] + [specs[|specs| - 1]];
      CapacityForIsCapacity(specs[..|specs| - 1], r);
    }
  }

  lemma {:induction false} CoveringIsActive(jobs: seq<Proposal>, starts: seq<int>, r: string, n: nat, t: int)
    requires n <= |jobs| == |starts|
    ensures Covering(IntervalsOf(Decisions(jobs, starts), r, n), t) == Active(jobs, starts, r, n, t)
  {
    if n > 0 {
      CoveringIsActive(jobs, starts, r, n - 1, t);
      var ds := Decisions(jobs, starts);
      CoveringAppend(IntervalsOf(ds, r, n - 1), IntervalOf(ds[n - 1]), t);
    }
  }

  lemma PlannedRowValid(m: Manifest, decisions: seq<QueueDecision>, i: nat)
    requires ValidManifest(m) && IsPlanFor(m, Success(decisions)) && i < |decisions|
    requires DistinctIds(Jobs(m)) && RespectsReady(Jobs(m), PlannedStarts(m))
    ensures RowValid(m, ById(m.proposals), decisions, i)
  {
    var jobs := Jobs(m);
    assert jobs[i] in multiset(m.proposals);
    ByIdFinds(m.proposals, jobs[i]);
    assert decisions[i] == DecisionAt(jobs, PlannedStarts(m), i);
    forall j | 0 <= j < i
      ensures decisions[j].proposalId != decisions[i].proposalId
    {
      assert decisions[j].proposalId == jobs[j].proposalId;
    }
  }

  lemma {:induction false} NeverActive(jobs: seq<Proposal>, starts: seq<int>, r: string, n: nat, t: int)
    requires n <= |jobs| == |starts| && forall i :: 0 <= i < |jobs| ==> jobs[i].resourceClass != r
    ensures Active(jobs, starts, r, n, t) == 0
  {
    if n > 0 {
      NeverActive(jobs, starts, r, n - 1, t);
    }
  }

  lemma PlannedCapacity(m: Manifest, decisions: seq<QueueDecision>)
    requires ValidManifest(m) && IsPlanFor(m, Success(decisions))
    ensures CapacityRespected(m, decisions)
  {
    var jobs, starts, cap := Jobs(m), PlannedStarts(m), CapacitiesOf(m.resources);
    ManifestWorkload(m);
    forall r, t
      ensures Covering(IntervalsOf(decisions, r, |decisions|), t) <= CapacityFor(m.resources, r)
    {
      CoveringIsActive(jobs, starts, r, |jobs|, t);
      CapacityForIsCapacity(m.resources, r);
      if r in cap {
        GreedyCapacity(jobs, cap, r, |jobs|, t);
      } else {
        NeverActive(jobs, starts, r, |jobs|, t);
      }
    }
  }

  /** Every plan within the ceilings passes the independent checker. */
  lemma PlanIsSchedule(m: Manifest, decisions: seq<QueueDecision>)
    requires ValidManifest(m) && IsPlanFor(m, Success(decisions))
    ensures IsScheduleOf(m, Trace(decisions, true))
  {
    ManifestWorkload(m);
    NormalizeKeepsIds(m.proposals);
    GreedyInOrder(Jobs(m), CapacitiesOf(m.resources));
    forall i | 0 <= i < |decisions|
      ensures RowValid(m, ById(m.proposals), decisions, i)
    {
      PlannedRowValid(m, decisions, i);
    }
    PlannedCapacity(m, decisions);
  }

  /** Decisions on one resource start in the normal order of their proposals. */
  ghost predicate StartsInNormalOrder(m: Manifest, decisions: seq<QueueDecision>) {
    forall a, b ::
      0 <= a < |decisions| && 0 <= b < |decisions| &&
      decisions[a].proposalId in ById(m.proposals) && decisions[b].proposalId in ById(m.proposals) &&
      decisions[a].resourceClass == decisions[b].resourceClass &&
      Before(ById(m.proposals)[decisions[a].proposalId], ById(m.proposals)[decisions[b].proposalId]) ==>
        decisions[a].plannedStartTick <= decisions[b].plannedStartTick
  }

  ghost function Range(n: nat): (s: set<nat>)
    ensures |s| == n && forall i: nat :: i in s <==> i < n
  {
    if n == 0 then {} else Range(n - 1) + {n - 1}
  }

  /** An injection of the first `n` numbers into a set of at most `n` elements reaches all of them. */
  lemma {:induction false} Pigeonhole<T>(f: seq<T>, s: set<T>)
    requires forall i, j :: 0 <= i < j < |f| ==> f[i] != f[j]
    requires forall x :: x in f ==> x in s
    requires |s| <= |f|
    ensures forall x :: x in s ==> x in f
    decreases |f|
  {
    if f != [] {
      var last := f[|f| - 1];
      assert last in f;
      forall x | x in f[..|f| - 1]
        ensures x in s - {last}
      {
      }
      Pigeonhole(f[..|f| - 1], s - {last});
      assert f == f[..|f| - 1] + [last];
    }
  }

  function Ids(decisions: seq<QueueDecision>): (ids: seq<string>)
    ensures |ids| == |decisions| && forall i :: 0 <= i < |ids| ==> ids[i] == decisions[i].proposalId
  {
    seq(|decisions|, i requires 0 <= i < |decisions| => decisions[i].proposalId)
  }

  lemma {:induction false} ByIdSize(ps: seq<Proposal>)
    ensures |ById(ps)| <= |ps|
  {
    if ps != [] {
      var front := ById(ps[..|ps| - 1]);
      ByIdSize(ps[..|ps| - 1]);
      var id := ps[|ps| - 1].proposalId;
      assert ById(ps).Keys == front.Keys + {id};
      assert id !in front ==> |front.Keys + {id}| == |front.Keys| + 1;
      assert id in front ==> front.Keys + {id} == front.Keys;
    }
  }

  /** Every proposal of an accepted trace has its decision. */
  lemma DecisionExists(m: Manifest, trace: Trace, p: Proposal)
    requires IsScheduleOf(m, trace) && p in m.proposals
    ensures exists d :: 0 <= d < |trace.decisions| && trace.decisions[d].proposalId == p.proposalId
  {
    IdsDistinct(m, trace.decisions);
    ByIdSize(m.proposals);
    Pigeonhole(Ids(trace.decisions), ById(m.proposals).Keys);
    assert p.proposalId in Ids(trace.decisions);
  }

  lemma IdsDistinct(m: Manifest, decisions: seq<QueueDecision>)
    requires forall i :: 0 <= i < |decisions| ==> RowValid(m, ById(m.proposals), decisions, i)
    ensures forall i, j :: 0 <= i < j < |decisions| ==> Ids(decisions)[i] != Ids(decisions)[j]
    ensures forall x :: x in Ids(decisions) ==> x in ById(m.proposals).Keys
  {
    forall i, j | 0 <= i < j < |decisions|
      ensures Ids(decisions)[i] != Ids(decisions)[j]
    {
      assert RowValid(m, ById(m.proposals), decisions, j);
    }
    forall i | 0 <= i < |decisions|
      ensures Ids(decisions)[i] in ById(m.proposals).Keys
    {
      assert RowValid(m, ById(m.proposals), decisions, i);
    }
  }

  /** `at[i]` is the position of the decision on the i-th job. */
  ghost predicate Locates(m: Manifest, trace: Trace, at: seq<nat>) {
    && |at| == |Jobs(m)|
    && forall i :: 0 <= i < |at| ==>
      at[i] < |trace.decisions| && trace.decisions[at[i]].proposalId == Jobs(m)[i].proposalId
  }

  lemma {:induction false} LocateJobs(m: Manifest, trace: Trace, n: nat) returns (at: seq<nat>)
    requires IsScheduleOf(m, trace) && n <= |Jobs(m)|
    ensures |at| == n
    ensures forall i :: 0 <= i < n ==>
      at[i] < |trace.decisions| && trace.decisions[at[i]].proposalId == Jobs(m)[i].proposalId
  {
    if n == 0 {
      return [];
    }
    at := LocateJobs(m, trace, n - 1);
    assert Jobs(m)[n - 1] in multiset(m.proposals);
    DecisionExists(m, trace, Jobs(m)[n - 1]);
    var d: nat :| d < |trace.decisions| && trace.decisions[d].proposalId == Jobs(m)[n - 1].proposalId;
    at := at + [d];
  }

  ghost function StartsAt(trace: Trace, at: seq<nat>): (starts: seq<int>)
    requires forall i :: 0 <= i < |at| ==> at[i] < |trace.decisions|
    ensures |starts| == |at|
    ensures forall i :: 0 <= i < |at| ==> starts[i] == trace.decisions[at[i]].plannedStartTick
  {
    seq(|at|, i requires 0 <= i < |at| => trace.decisions[at[i]].plannedStartTick)
  }

  /** What the checker established about the decision on one job. */
  lemma RowOfJob(m: Manifest, trace: Trace, at: seq<nat>, i: nat)
    requires ValidManifest(m) && IsScheduleOf(m, trace) && Locates(m, trace, at) && i < |at|
    ensures
      var d, p := trace.decisions[at[i]], Jobs(m)[i];
      && p.proposalId in ById(m.proposals) && ById(m.proposals)[p.proposalId] == p
      && SemanticsMatch(d, p) && TimingValid(m, d, p)
  {
    assert RowValid(m, ById(m.proposals), trace.decisions, at[i]);
    assert Jobs(m)[i] in multiset(m.proposals);
    ByIdFinds(m.proposals, Jobs(m)[i]);
  }

  ghost predicate Runs(decisions: seq<QueueDecision>, r: string, d: nat, t: int)
    requires d < |decisions|
  {
    decisions[d].resourceClass == r && decisions[d].plannedStartTick <= t < decisions[d].plannedFinishTick
  }

  ghost function CoveringSet(decisions: seq<QueueDecision>, r: string, n: nat, t: int): set<nat>
    requires n <= |decisions|
  {
    set d: nat | d < n && Runs(decisions, r, d, t)
  }

  lemma CoveringSetNext(decisions: seq<QueueDecision>, r: string, n: nat, t: int)
    requires n < |decisions|
    ensures |CoveringSet(decisions, r, n + 1, t)|
         == |CoveringSet(decisions, r, n, t)| + if Runs(decisions, r, n, t) then 1 else 0
  {
    var before := CoveringSet(decisions, r, n, t);
    assert CoveringSet(decisions, r, n + 1, t) == if Runs(decisions, r, n, t) then before + {n} else before;
  }

  lemma {:induction false} CoveringCount(decisions: seq<QueueDecision>, r: string, n: nat, t: int)
    requires n <= |decisions|
    ensures |CoveringSet(decisions, r, n, t)| == Covering(IntervalsOf(decisions, r, n), t)
  {
    if n > 0 {
      CoveringCount(decisions, r, n - 1, t);
      CoveringSetNext(decisions, r, n - 1, t);
      CoveringAppend(IntervalsOf(decisions, r, n - 1), IntervalOf(decisions[n - 1]), t);
    }
  }

  lemma {:induction false} ImageSize(at: seq<nat>, s: set<nat>, image: set<nat>)
    requires forall i :: i in s ==> i < |at| && at[i] in image
    requires forall i, j :: 0 <= i < |at| && 0 <= j < |at| && i != j ==> at[i] != at[j]
    ensures |s| <= |image|
    decreases |s|
  {
    if s != {} {
      var i :| i in s;
      ImageSize(at, s - {i}, image - {at[i]});
    }
  }

  /** An accepted trace in normal order is a feasible schedule of the normalized jobs, within the ceilings. */
  lemma TraceIsFeasible(m: Manifest, trace: Trace, at: seq<nat>)
    requires ValidManifest(m) && IsScheduleOf(m, trace) && StartsInNormalOrder(m, trace.decisions)
    requires Locates(m, trace, at)
    ensures Feasible(Jobs(m), CapacitiesOf(m.resources), StartsAt(trace, at))
    ensures WithinCeilings(Jobs(m), StartsAt(trace, at), m.maxWaitTicks, m.maxFinishTick)
  {
    var jobs, starts, cap, ds := Jobs(m), StartsAt(trace, at), CapacitiesOf(m.resources), trace.decisions;
    ManifestWorkload(m);
    NormalizeKeepsIds(m.proposals);
    forall i | 0 <= i < |jobs|
      ensures jobs[i].readyTick <= starts[i]
      ensures starts[i] - jobs[i].readyTick <= m.maxWaitTicks && Finish(jobs, starts, i) <= m.maxFinishTick
    {
      RowOfJob(m, trace, at, i);
    }
    forall i, j | 0 <= i < j < |jobs| && jobs[i].resourceClass == jobs[j].resourceClass
      ensures starts[i] <= starts[j]
    {
      RowOfJob(m, trace, at, i);
      RowOfJob(m, trace, at, j);
      assert Before(jobs[i], jobs[j]);
    }
    forall r, t | r in cap
      ensures Active(jobs, starts, r, |jobs|, t) <= cap[r]
    {
      TraceCapacity(m, trace, at, r, t);
    }
  }

  lemma TraceCapacity(m: Manifest, trace: Trace, at: seq<nat>, r: string, t: int)
    requires ValidManifest(m) && IsScheduleOf(m, trace) && Locates(m, trace, at)
    requires r in CapacitiesOf(m.resources)
    ensures Active(Jobs(m), StartsAt(trace, at), r, |Jobs(m)|, t) <= CapacitiesOf(m.resources)[r]
  {
    var jobs, starts, ds := Jobs(m), StartsAt(trace, at), trace.decisions;
    var holders := SimPyAdapter.Holders(jobs, starts, r, |jobs|, t);
    SimPyAdapter.HoldersCount(jobs, starts, r, |jobs|, t);
    CoveringCount(ds, r, |ds|, t);
    CapacityForIsCapacity(m.resources, r);
    HoldersCovered(m, trace, at, r, t);
    ImageSize(at, holders, CoveringSet(ds, r, |ds|, t));
    if IntervalsOf(ds, r, |ds|) == [] {
      assert Covering(IntervalsOf(ds, r, |ds|), t) == 0;
    }
  }

  lemma HoldersCovered(m: Manifest, trace: Trace, at: seq<nat>, r: string, t: int)
    requires ValidManifest(m) && IsScheduleOf(m, trace) && Locates(m, trace, at)
    ensures forall i :: i in SimPyAdapter.Holders(Jobs(m), StartsAt(trace, at), r, |Jobs(m)|, t) ==>
      at[i] in CoveringSet(trace.decisions, r, |trace.decisions|, t)
    ensures forall i, j :: 0 <= i < |at| && 0 <= j < |at| && i != j ==> at[i] != at[j]
  {
    NormalizeKeepsIds(m.proposals);
    forall i | i in SimPyAdapter.Holders(Jobs(m), StartsAt(trace, at), r, |Jobs(m)|, t)
      ensures at[i] in CoveringSet(trace.decisions, r, |trace.decisions|, t)
    {
      RowOfJob(m, trace, at, i);
    }
    forall i, j | 0 <= i < |at| && 0 <= j < |at| && i != j
      ensures at[i] != at[j]
    {
      assert Jobs(m)[i].proposalId != Jobs(m)[j].proposalId;
    }
  }

  /** An accepted trace in normal order exists only for manifests that the greedy rule can plan. */
  lemma AcceptedTraceMeansPlan(m: Manifest, trace: Trace)
    requires ValidManifest(m) && IsScheduleOf(m, trace) && StartsInNormalOrder(m, trace.decisions)
    ensures WithinCeilings(Jobs(m), PlannedStarts(m), m.maxWaitTicks, m.maxFinishTick)
  {
    var at := LocateJobs(m, trace, |Jobs(m)|);
    ManifestWorkload(m);
    TraceIsFeasible(m, trace, at);
    RejectionIsComplete(
      Jobs(m), CapacitiesOf(m.resources), StartsAt(trace, at), m.maxWaitTicks, m.maxFinishTick);
  }

  /**
    Completeness of a ceiling error: when the planners report one, the checker rejects every trace whose
    resources start their jobs in normal order.
   */
  lemma CeilingErrorIsComplete(m: Manifest, error: PlanError, trace: Trace)
    requires ValidManifest(m) && IsPlanFor(m, Failure(error))
    requires StartsInNormalOrder(m, trace.decisions)
    ensures !IsScheduleOf(m, trace)
  {
    if IsScheduleOf(m, trace) {
      AcceptedTraceMeansPlan(m, trace);
    }
  }

  // ---------- what plans and accepted traces say, over the fields ----------

  lemma JobAtDecision(jobs: seq<Proposal>, starts: seq<int>, p: Proposal, a: nat)
    requires |starts| == |jobs| && DistinctIds(jobs) && p in jobs
    requires a < |jobs| && DecisionAt(jobs, starts, a).proposalId == p.proposalId
    ensures jobs[a] == p
  {
    var k :| 0 <= k < |jobs| && jobs[k] == p;
  }

  /** The position of the decision on a proposal is the position of the proposal in the normal order. */
  lemma PlannedAt(m: Manifest, decisions: seq<QueueDecision>, p: Proposal, a: nat)
    requires ValidManifest(m) && IsPlanFor(m, Success(decisions)) && p in m.proposals
    requires a < |decisions| && decisions[a].proposalId == p.proposalId
    ensures a < |Jobs(m)| && Jobs(m)[a] == p && decisions[a] == DecisionAt(Jobs(m), PlannedStarts(m), a)
  {
    NormalizeKeepsIds(m.proposals);
    assert p in multiset(Jobs(m));
    assert decisions == Decisions(Jobs(m), PlannedStarts(m));
    JobAtDecision(Jobs(m), PlannedStarts(m), p, a);
  }

  lemma EarlierStartsFirst(m: Manifest, a: nat, b: nat)
    requires ValidManifest(m) && a < b < |Jobs(m)| && Jobs(m)[a].resourceClass == Jobs(m)[b].resourceClass
    ensures PlannedStarts(m)[a] <= PlannedStarts(m)[b]
  {
    ManifestWorkload(m);
    GreedyInOrder(Jobs(m), CapacitiesOf(m.resources));
  }

  /**
    Who goes first in a plan: of two proposals for one resource that are ready at the same tick, the one with the
    smaller priority number has the smaller deterministic ordinal and does not start later; with equal priorities
    the submission ordinal decides.
   */
  lemma PriorityGoesFirst(m: Manifest, decisions: seq<QueueDecision>, p: Proposal, a: nat, q: Proposal, b: nat)
    requires ValidManifest(m) && IsPlanFor(m, Success(decisions)) && p in m.proposals && q in m.proposals
    requires a < |decisions| && decisions[a].proposalId == p.proposalId
    requires b < |decisions| && decisions[b].proposalId == q.proposalId
    requires p.resourceClass == q.resourceClass && p.readyTick == q.readyTick
    requires p.priority < q.priority || (p.priority == q.priority && p.submissionOrdinal < q.submissionOrdinal)
    ensures decisions[a].deterministicOrdinal < decisions[b].deterministicOrdinal
    ensures decisions[a].plannedStartTick <= decisions[b].plannedStartTick
  {
    PlannedAt(m, decisions, p, a);
    PlannedAt(m, decisions, q, b);
    ManifestWorkload(m);
    PlaceByPriority(Jobs(m), a, b);
    EarlierStartsFirst(m, a, b);
  }

  /** The decision is on the proposal, in its words, in its time and within the ceilings. */
  predicate DecidesOn(m: Manifest, d: QueueDecision, p: Proposal) {
    && d.proposalId == p.proposalId && d.schedulingClass == p.schedulingClass
    && d.resourceClass == p.resourceClass && d.expectedDisposition == p.expectedDisposition
    && !d.kernelAcceptance
    && p.readyTick <= d.plannedStartTick <= p.readyTick + m.maxWaitTicks
    && d.plannedStartTick + p.serviceTicks == d.plannedFinishTick <= m.maxFinishTick
  }

  /** The decisions that run on a resource at a tick. */
  ghost function RunningAt(decisions: seq<QueueDecision>, r: string, t: int): set<nat> {
    set d: nat | d < |decisions| && decisions[d].resourceClass == r
      && decisions[d].plannedStartTick <= t < decisions[d].plannedFinishTick
  }

  /** The units of a resource class that the manifest offers; none if it does not list the class. */
  ghost predicate Offers(m: Manifest, r: string, units: int) {
    if exists spec :: spec in m.resources && spec.resourceClass == r then
      exists spec :: spec in m.resources && spec.resourceClass == r && spec.capacity == units
    else units == 0
  }

  /** Every tick of every resource has as many decisions running as the resource has units, or fewer. */
  ghost predicate NeverOverbooked(m: Manifest, decisions: seq<QueueDecision>) {
    forall r, t, units :: Offers(m, r, units) ==> |RunningAt(decisions, r, t)| <= units
  }

  lemma {:induction false} CapacityForIsOffered(specs: seq<ResourceSpec>, r: string)
    ensures
      var units := CapacityFor(specs, r);
      if exists spec :: spec in specs && spec.resourceClass == r then
        exists spec :: spec in specs && spec.resourceClass == r && spec.capacity == units
      else units == 0
  {
    if specs != [] {
      var front, last := specs[..|specs| - 1], specs[|specs| - 1];
      assert specs == front + [last];
      CapacityForIsOffered(front, r);
      assert last in specs;
      if last.resourceClass != r {
        if spec :| spec in specs && spec.resourceClass == r {
          assert spec in front;
        }
        if spec :| spec in front && spec.resourceClass == r && spec.capacity == CapacityFor(front, r) {
          assert spec in specs;
        }
      }
    }
  }

  lemma OffersOne(m: Manifest, r: string, a: int, b: int)
    requires ValidManifest(m) && Offers(m, r, a) && Offers(m, r, b)
    ensures a == b && 0 <= a
  {
    if exists spec :: spec in m.resources && spec.resourceClass == r {
      var x :| x in m.resources && x.resourceClass == r && x.capacity == a;
      var y :| y in m.resources && y.resourceClass == r && y.capacity == b;
      assert ValidResource(x);
      var i :| 0 <= i < |m.resources| && m.resources[i] == x;
      var j :| 0 <= j < |m.resources| && m.resources[j] == y;
      assert i == j;
    }
  }

  lemma RunningIsCovering(decisions: seq<QueueDecision>, r: string, t: int)
    ensures |RunningAt(decisions, r, t)| == Covering(IntervalsOf(decisions, r, |decisions|), t)
  {
    CoveringCount(decisions, r, |decisions|, t);
    assert RunningAt(decisions, r, t) == CoveringSet(decisions, r, |decisions|, t);
  }

  lemma CapacityIsRunning(m: Manifest, decisions: seq<QueueDecision>)
    requires ValidManifest(m)
    ensures CapacityRespected(m, decisions) <==> NeverOverbooked(m, decisions)
  {
    var n := |decisions|;
    if CapacityRespected(m, decisions) {
      forall r, t, units | Offers(m, r, units)
        ensures |RunningAt(decisions, r, t)| <= units
      {
        CapacityForIsOffered(m.resources, r);
        OffersOne(m, r, units, CapacityFor(m.resources, r));
        RunningIsCovering(decisions, r, t);
        if IntervalsOf(decisions, r, n) == [] {
          assert Covering(IntervalsOf(decisions, r, n), t) == 0;
        }
      }
    }
    if NeverOverbooked(m, decisions) {
      forall r, t | IntervalsOf(decisions, r, n) != []
        ensures Covering(IntervalsOf(decisions, r, n), t) <= CapacityFor(m.resources, r)
      {
        CapacityForIsOffered(m.resources, r);
        RunningIsCovering(decisions, r, t);
        assert Offers(m, r, CapacityFor(m.resources, r));
        assert |RunningAt(decisions, r, t)| <= CapacityFor(m.resources, r);
      }
    }
  }

  /** Every proposal has at most one decision, numbered in sequence, on its own terms. */
  ghost predicate DecidesAll(m: Manifest, decisions: seq<QueueDecision>) {
    && |decisions| == |m.proposals|
    && (forall i, j :: 0 <= i < j < |decisions| ==> decisions[i].proposalId != decisions[j].proposalId)
    && (forall i :: 0 <= i < |decisions| ==> decisions[i].deterministicOrdinal == i + 1)
    && (forall d :: d in decisions ==> exists p :: p in m.proposals && DecidesOn(m, d, p))
  }

  lemma RowDecides(m: Manifest, decisions: seq<QueueDecision>, i: nat)
    requires ValidManifest(m) && i < |decisions|
    ensures RowValid(m, ById(m.proposals), decisions, i) <==>
      && Bound(ById(m.proposals), decisions, i)
      && decisions[i].deterministicOrdinal == i + 1
      && exists p :: p in m.proposals && DecidesOn(m, decisions[i], p)
  {
    var byId, d := ById(m.proposals), decisions[i];
    if p :| p in m.proposals && DecidesOn(m, d, p) {
      ByIdFinds(m.proposals, p);
    }
    if RowValid(m, byId, decisions, i) {
      assert byId[d.proposalId] in m.proposals && DecidesOn(m, d, byId[d.proposalId]);
    }
  }

  /** What the validator accepts, in the terms of the manifest. */
  lemma AcceptedTraceMeans(m: Manifest, trace: Trace)
    requires ValidManifest(m)
    ensures IsScheduleOf(m, trace) <==>
      trace.headerValid && DecidesAll(m, trace.decisions) && NeverOverbooked(m, trace.decisions)
  {
    var ds, byId := trace.decisions, ById(m.proposals);
    CapacityIsRunning(m, ds);
    forall i | 0 <= i < |ds|
      ensures RowValid(m, byId, ds, i) <==>
        && Bound(byId, ds, i) && ds[i].deterministicOrdinal == i + 1
        && exists p :: p in m.proposals && DecidesOn(m, ds[i], p)
    {
      RowDecides(m, ds, i);
    }
    if DecidesAll(m, ds) {
      forall i | 0 <= i < |ds|
        ensures RowValid(m, byId, ds, i)
      {
        assert ds[i] in ds;
        var p :| p in m.proposals && DecidesOn(m, ds[i], p);
        ByIdFinds(m.proposals, p);
      }
    }
    if IsScheduleOf(m, trace) {
      IdsDistinct(m, ds);
      forall i, j | 0 <= i < j < |ds|
        ensures ds[i].proposalId != ds[j].proposalId
      {
        assert Ids(ds)[i] != Ids(ds)[j];
      }
      forall d | d in ds
        ensures exists p :: p in m.proposals && DecidesOn(m, d, p)
      {
        var i :| 0 <= i < |ds| && ds[i] == d;
        assert RowValid(m, byId, ds, i);
      }
    }
  }

  // ---------- overtaking ----------

  const CLASS_LIST: seq<string> := [
    "intake_operations", "conflicts_operations", "responsible_counsel", "docketing_operations",
    "independent_deadline_review", "litigation_support", "billing_operations", "carrier_review"]

  /** One unit of every resource class. */
  function UnitResources(): (specs: seq<ResourceSpec>)
    ensures |specs| == |CLASS_LIST|
    ensures forall k :: 0 <= k < |specs| ==> specs[k] == ResourceSpec(CLASS_LIST[k], 1, "deterministic_fifo", true)
  {
    seq(|CLASS_LIST|, k requires 0 <= k < |CLASS_LIST| => ResourceSpec(CLASS_LIST[k], 1, "deterministic_fifo", true))
  }

  lemma ClassesByLength()
    ensures |CLASS_LIST| == 8
    ensures |CLASS_LIST[0]| == 17 && |CLASS_LIST[1]| == 20 && |CLASS_LIST[2]| == 19 && |CLASS_LIST[3]| == 20
    ensures |CLASS_LIST[4]| == 27 && |CLASS_LIST[5]| == 18 && |CLASS_LIST[6]| == 18 && |CLASS_LIST[7]| == 14
    ensures CLASS_LIST[1][0] != CLASS_LIST[3][0] && CLASS_LIST[5][0] != CLASS_LIST[6][0]
  {
  }

  lemma ClassesDiffer()
    ensures forall i, j :: 0 <= i < j < |CLASS_LIST| ==> CLASS_LIST[i] != CLASS_LIST[j]
  {
    ClassesByLength();
  }

  lemma ClassesAreListed()
    ensures (set spec | spec in UnitResources() :: spec.resourceClass) == RESOURCE_CLASSES
  {
    var specs := UnitResources();
    var classes := set spec | spec in specs :: spec.resourceClass;
    forall r
      ensures r in classes <==> r in CLASS_LIST
    {
      if r in CLASS_LIST {
        var k :| 0 <= k < |CLASS_LIST| && CLASS_LIST[k] == r;
        assert specs[k] in specs && specs[k].resourceClass == r;
      }
    }
    assert forall r :: r in CLASS_LIST <==> r in RESOURCE_CLASSES;
  }

  lemma {:induction false} UnitCapacities(specs: seq<ResourceSpec>)
    requires forall spec :: spec in specs ==> ValidResource(spec) && spec.capacity == 1
    ensures forall r :: r in CapacitiesOf(specs) ==> CapacitiesOf(specs)[r] == 1
  {
    if specs != [] {
      assert specs == specs[..|specs| - 1] + [specs[|specs| - 1]];
      UnitCapacities(specs[..|specs| - 1]);
    }
  }

  /** A job of five ticks, and a job of one tick that is ready one tick later, for the same unit. */
  ghost predicate LongAndShort(long: Proposal, short: Proposal) {
    && long.resourceClass == short.resourceClass == CLASS_LIST[6]
    && long.readyTick == 0 && long.serviceTicks == 5 && short.readyTick == 1 && short.serviceTicks == 1
    && long.priority == short.priority == 0
    && long.submissionOrdinal == 1 && short.submissionOrdinal == 2
    && long.proposalId != short.proposalId
    && long.commandCommitment != short.commandCommitment && long.tieBreakKey != short.tieBreakKey
    && long.expectedDisposition == short.expectedDisposition == "accepted"
  }

  function TightManifest(long: Proposal, short: Proposal): Manifest {
    Manifest(UnitResources(), [long, short], 3, 10, true)
  }

  function DecisionOn(p: Proposal, start: int, ordinal: int): QueueDecision {
    QueueDecision(
      p.proposalId, p.schedulingClass, p.resourceClass, start, start + p.serviceTicks,
      ordinal, p.expectedDisposition, false)
  }

  /** The short job is served first. */
  function OvertakingTrace(long: Proposal, short: Proposal): Trace {
    Trace([DecisionOn(short, 1, 1), DecisionOn(long, 2, 2)], true)
  }

  lemma TightManifestIsValid(long: Proposal, short: Proposal)
    requires LongAndShort(long, short)
    ensures ValidManifest(TightManifest(long, short))
  {
    ClassesDiffer();
    ClassesAreListed();
    assert CLASS_LIST[6] in RESOURCE_CLASSES;
  }

  lemma TraceIntervals(long: Proposal, short: Proposal, r: string)
    requires LongAndShort(long, short)
    ensures
      var ds := OvertakingTrace(long, short).decisions;
      IntervalsOf(ds, r, 2) == if r == CLASS_LIST[6] then [Interval(1, 2)] + [Interval(2, 7)] else []
  {
    var ds := OvertakingTrace(long, short).decisions;
    assert IntervalsOf(ds, r, 1) == if r == CLASS_LIST[6] then [Interval(1, 2)] else [];
  }

  lemma OneAtATime(t: int)
    ensures Covering([Interval(1, 2)] + [Interval(2, 7)], t) <= 1
  {
    CoveringAppend([Interval(1, 2)], Interval(2, 7), t);
    CoveringAppend([], Interval(1, 2), t);
    assert [] + [Interval(1, 2)] == [Interval(1, 2)];
  }

  lemma OvertakingRowsValid(long: Proposal, short: Proposal)
    requires LongAndShort(long, short)
    ensures
      var m, ds := TightManifest(long, short), OvertakingTrace(long, short).decisions;
      RowValid(m, ById(m.proposals), ds, 0) && RowValid(m, ById(m.proposals), ds, 1)
  {
    var ps := [long, short];
    ByIdFinds(ps, ps[0]);
    ByIdFinds(ps, ps[1]);
  }

  /** The intervals of the trace fit on one unit. */
  lemma OvertakingFits(long: Proposal, short: Proposal, r: string)
    requires LongAndShort(long, short)
    ensures
      var ds := OvertakingTrace(long, short).decisions;
      && (IntervalsOf(ds, r, 2) != [] ==> r == CLASS_LIST[6])
      && Fits(IntervalsOf(ds, r, 2), 1)
  {
    TraceIntervals(long, short, r);
    forall t
      ensures Covering(IntervalsOf(OvertakingTrace(long, short).decisions, r, 2), t) <= 1
    {
      OneAtATime(t);
    }
  }

  lemma UnitsAreOne(r: string)
    requires forall spec :: spec in UnitResources() ==> ValidResource(spec)
    ensures var cap := CapacitiesOf(UnitResources()); r in cap ==> cap[r] == 1
    ensures r in CLASS_LIST ==> CapacityFor(UnitResources(), r) == 1
  {
    UnitCapacities(UnitResources());
    CapacityForIsCapacity(UnitResources(), r);
    if k :| 0 <= k < |CLASS_LIST| && CLASS_LIST[k] == r {
      assert UnitResources()[k] in UnitResources();
    }
  }

  lemma OvertakingTraceIsSchedule(long: Proposal, short: Proposal)
    requires LongAndShort(long, short)
    ensures IsScheduleOf(TightManifest(long, short), OvertakingTrace(long, short))
  {
    OvertakingRowsValid(long, short);
    forall r
      ensures IntervalsOf(OvertakingTrace(long, short).decisions, r, 2) != [] ==>
        Fits(IntervalsOf(OvertakingTrace(long, short).decisions, r, 2), CapacityFor(UnitResources(), r))
    {
      OvertakingFits(long, short, r);
      UnitsAreOne(r);
    }
  }

  lemma ShortWaitsBehindLong(jobs: seq<Proposal>, r: string)
    requires |jobs| == 2 && LongAndShort(jobs[0], jobs[1]) && r == jobs[0].resourceClass
    ensures EarliestFree(jobs, r, 1, 1) == 5
  {
    var row := Row(jobs, r, 1, 0);
    assert row[MinIndex(row)] == 0;
    assert Row(jobs, r, 1, 1) == row[MinIndex(row) := 5];
  }

  lemma ShortWaitsTooLong(jobs: seq<Proposal>, cap: Capacities)
    requires Workload(jobs, cap) && |jobs| == 2 && LongAndShort(jobs[0], jobs[1]) && cap[jobs[1].resourceClass] == 1
    ensures !WithinCeilings(jobs, GreedyStarts(jobs, cap), 3, 10)
  {
    ShortWaitsBehindLong(jobs, jobs[1].resourceClass);
    assert GreedyStarts(jobs, cap)[1] == GreedyStart(jobs, cap, 1) == 5;
  }

  lemma LongComesFirst(jobs: seq<Proposal>)
    requires |jobs| == 2 && LongAndShort(jobs[0], jobs[1])
    ensures Normalized(jobs)
  {
  }

  lemma OvertakingIsRefused(m: Manifest, long: Proposal, short: Proposal)
    requires LongAndShort(long, short) && m == TightManifest(long, short) && ValidManifest(m)
    ensures !WithinCeilings(Jobs(m), PlannedStarts(m), m.maxWaitTicks, m.maxFinishTick)
  {
    var jobs := m.proposals;
    ManifestWorkload(m);
    LongComesFirst(jobs);
    NormalOrderUnique(Jobs(m), jobs);
    UnitsAreOne(short.resourceClass);
    ShortWaitsTooLong(jobs, CapacitiesOf(m.resources));
  }

  /**
    Normal order is needed for completeness: a valid manifest that every planner refuses, and a trace with an
    overtaking job that the checker accepts.
   */
  lemma OvertakingCanMeetCeilings() returns (m: Manifest, trace: Trace)
    ensures ValidManifest(m) && IsScheduleOf(m, trace)
    ensures forall r :: IsPlanFor(m, r) ==> r.Failure?
  {
    var long := Proposal("long", "C1", "batch", 0, 5, CLASS_LIST[6], 0, 1, "T1", "accepted");
    var short := Proposal("short", "C2", "batch", 1, 1, CLASS_LIST[6], 0, 2, "T2", "accepted");
    assert long.commandCommitment[1] != short.commandCommitment[1] && long.tieBreakKey[1] != short.tieBreakKey[1];
    assert |long.proposalId| != |short.proposalId|;
    assert LongAndShort(long, short);
    m, trace := TightManifest(long, short), OvertakingTrace(long, short);
    TightManifestIsValid(long, short);
    OvertakingTraceIsSchedule(long, short);
    OvertakingIsRefused(m, long, short);
  }

  datatype QualificationError = Refused(reason: PlanError) | TraceInvalid | EquivalenceFailed | ReplayFailed

  /** The gate never fails on a manifest that the reference scheduler can plan. */
  method QualifySchedule(m: Manifest) returns (r: Result<seq<QueueDecision>, QualificationError>)
    ensures r.Success? ==> IsPlanFor(m, Success(r.value)) && IsScheduleOf(m, Trace(r.value, true))
    ensures r.Failure? ==> r.error.Refused? && IsPlanFor(m, Failure(r.error.reason))
  {
    var reference := PlanWithReferenceScheduler(m);
    if reference.Failure? {
      return Failure(Refused(reference.error));
    }
    var runtime := SimPyAdapter.Plan(m);
    var replay := SimPyAdapter.Plan(m);
    SimPyAdapter.PlansAgree(m, reference, runtime);
    SimPyAdapter.PlansAgree(m, reference, replay);
    PlanIsSchedule(m, reference.value);
    if runtime.Failure? || replay.Failure? {
      return Failure(EquivalenceFailed);
    }
    var errors := ValidateSchedulerTrace(m, Trace(reference.value, true));
    var runtimeErrors := ValidateSchedulerTrace(m, Trace(runtime.value, true));
    if errors != [] || runtimeErrors != [] {
      return Failure(TraceInvalid);
    }
    if runtime.value != reference.value {
      return Failure(EquivalenceFailed);
    }
    if replay != runtime {
      return Failure(ReplayFailed);
    }
    return Success(runtime.value);
  }
}
