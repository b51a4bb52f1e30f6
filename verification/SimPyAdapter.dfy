/**
  The event-driven adapter (simpy_schedule_adapter.py): every proposal is a process that waits for its
  ready tick, queues for one unit of its resource, is served, and records its decision.  The clock visits
  ticks in turn; within a tick arrivals enqueue in normal order, finished jobs release their units, and
  queue heads take free units.
 */
module SimPyAdapter {
  import opened Collections
  import opened Wrappers
  import opened ScheduleCore

  datatype Usage = Usage(job: nat, start: int)

  // A `simpy.Resource`: the requests being served and the FIFO of waiting ones.
  datatype Desk = Desk(users: seq<Usage>, queue: seq<nat>)

  type Record = map<string, QueueDecision>

  predicate Ascending(s: seq<nat>) {
    forall a, b :: 0 <= a < b < |s| ==> s[a] < s[b]
  }

  predicate DistinctJobs(users: seq<Usage>) {
    forall a, b :: 0 <= a < b < |users| ==> users[a].job != users[b].job
  }

  predicate Due(jobs: seq<Proposal>, r: string, i: nat, t: int) {
    i < |jobs| && jobs[i].resourceClass == r && jobs[i].readyTick <= t
  }

  // ---------- what the desks hold, in terms of a schedule ----------

  ghost predicate UsersAre(jobs: seq<Proposal>, starts: seq<int>, r: string, users: seq<Usage>, t: int)
    requires |starts| == |jobs|
  {
    && DistinctJobs(users)
    && (forall u :: u in users ==> u.job < |jobs| && Holds(jobs, starts, r, u.job, t) && u.start == starts[u.job])
    && (forall i: nat :: i < |jobs| && Holds(jobs, starts, r, i, t) ==> Usage(i, starts[i]) in users)
  }

  ghost predicate QueueIs(jobs: seq<Proposal>, starts: seq<int>, r: string, queue: seq<nat>, t: int)
    requires |starts| == |jobs|
  {
    && Ascending(queue)
    && (forall i: nat :: i in queue <==> Due(jobs, r, i, t) && t < starts[i])
  }

  ghost predicate RecordIs(jobs: seq<Proposal>, starts: seq<int>, r: string, recorded: Record, t: int)
    requires |starts| == |jobs|
  {
    forall i: nat :: i < |jobs| && jobs[i].resourceClass == r ==>
      if Finish(jobs, starts, i) <= t then
        jobs[i].proposalId in recorded && recorded[jobs[i].proposalId] == DecisionAt(jobs, starts, i)
      else
        jobs[i].proposalId !in recorded
  }

  /** The checks made so far: finishes up to tick `t` and waits of the jobs started by then. */
  ghost predicate CeilingsMet(
    jobs: seq<Proposal>, starts: seq<int>, r: string, finishedBy: int, startedBy: int, maxWait: int, maxFinish: int)
    requires |starts| == |jobs|
  {
    forall i: nat :: i < |jobs| && jobs[i].resourceClass == r ==>
      && (Finish(jobs, starts, i) <= finishedBy ==> Finish(jobs, starts, i) <= maxFinish)
      && (starts[i] <= startedBy ==> starts[i] - jobs[i].readyTick <= maxWait)
  }

  /** Job `i` breaks the ceiling that `error` names at tick `t`: a wait when it starts, a finish when it finishes. */
  ghost predicate BreaksAt(
    jobs: seq<Proposal>, starts: seq<int>, maxWait: int, maxFinish: int, error: PlanError, i: nat, t: int)
    requires i < |jobs| == |starts|
  {
    match error
    case StarvationCeilingExceeded => starts[i] == t && maxWait < t - jobs[i].readyTick
    case FinishCeilingExceeded => Finish(jobs, starts, i) == t && maxFinish < t
    case ManifestInvalid => false
  }

  ghost predicate BreachAt(
    jobs: seq<Proposal>, starts: seq<int>, maxWait: int, maxFinish: int, error: PlanError, t: int)
    requires |starts| == |jobs|
  {
    exists i: nat :: i < |jobs| && BreaksAt(jobs, starts, maxWait, maxFinish, error, i, t)
  }

  /** The error names a ceiling broken at tick `t`, and none of either kind is broken before. */
  ghost predicate EarliestBreach(
    jobs: seq<Proposal>, starts: seq<int>, maxWait: int, maxFinish: int, error: PlanError, t: int)
    requires |starts| == |jobs|
  {
    && BreachAt(jobs, starts, maxWait, maxFinish, error, t)
    && forall earlier, other :: earlier < t ==> !BreachAt(jobs, starts, maxWait, maxFinish, other, earlier)
  }

  ghost predicate FirstInTime(jobs: seq<Proposal>, starts: seq<int>, maxWait: int, maxFinish: int, error: PlanError)
    requires |starts| == |jobs|
  {
    exists t :: EarliestBreach(jobs, starts, maxWait, maxFinish, error, t)
  }

  lemma BreachIsPlan(jobs: seq<Proposal>, starts: seq<int>, maxWait: int, maxFinish: int, error: PlanError, t: int)
    requires |starts| == |jobs| && BreachAt(jobs, starts, maxWait, maxFinish, error, t)
    ensures IsPlan(jobs, starts, maxWait, maxFinish, Failure(error))
  {
  }

  /** Resource `r` has completed tick `t` as the schedule `starts` prescribes. */
  ghost predicate Settled(
    jobs: seq<Proposal>, starts: seq<int>, r: string, desk: Desk, recorded: Record, t: int)
    requires |starts| == |jobs|
  {
    && UsersAre(jobs, starts, r, desk.users, t)
    && QueueIs(jobs, starts, r, desk.queue, t)
    && RecordIs(jobs, starts, r, recorded, t)
  }

  /** Only entries of jobs on resource `r` differ. */
  ghost predicate SameElsewhere(jobs: seq<Proposal>, r: string, a: Record, b: Record) {
    forall i: nat :: i < |jobs| && jobs[i].resourceClass != r ==>
      var id := jobs[i].proposalId;
      (id in a <==> id in b) && (id in a ==> a[id] == b[id])
  }

  // ---------- counting users ----------

  ghost function Holders(jobs: seq<Proposal>, starts: seq<int>, r: string, n: nat, t: int): set<nat>
    requires n <= |jobs| == |starts|
  {
    set i: nat | i < n && Holds(jobs, starts, r, i, t)
  }

  lemma {:induction false} HoldersCount(jobs: seq<Proposal>, starts: seq<int>, r: string, n: nat, t: int)
    requires n <= |jobs| == |starts|
    ensures |Holders(jobs, starts, r, n, t)| == Active(jobs, starts, r, n, t)
  {
    if n > 0 {
      HoldersCount(jobs, starts, r, n - 1, t);
      var before := Holders(jobs, starts, r, n - 1, t);
      assert Holders(jobs, starts, r, n, t)
          == if Holds(jobs, starts, r, n - 1, t) then before + {n - 1} else before;
    }
  }

  ghost function JobSet(users: seq<Usage>): (s: set<nat>)
    ensures forall i :: i in s <==> exists u :: u in users && u.job == i
  {
    set u | u in users :: u.job
  }

  lemma {:induction false} JobSetSize(users: seq<Usage>)
    requires DistinctJobs(users)
    ensures |JobSet(users)| == |users|
  {
    if users != [] {
      var last := |users| - 1;
      JobSetSize(users[..last]);
      assert users == users[..last] + [users[last]];
      assert JobSet(users) == JobSet(users[..last]) + {users[last].job};
      forall u | u in users[..last]
        ensures u.job != users[last].job
      {
      }
    }
  }

  /** Users that hold the resource are at most its capacity many, and stay so if one more job holds it. */
  lemma UsersWithinCapacity(jobs: seq<Proposal>, starts: seq<int>, r: string, users: seq<Usage>, extra: nat, t: int)
    requires |starts| == |jobs| && DistinctJobs(users)
    requires forall u :: u in users ==> u.job < |jobs| && Holds(jobs, starts, r, u.job, t)
    requires extra < |jobs| && Holds(jobs, starts, r, extra, t) && forall u :: u in users ==> u.job != extra
    ensures |users| + 1 <= Active(jobs, starts, r, |jobs|, t)
  {
    JobSetSize(users);
    HoldersCount(jobs, starts, r, |jobs|, t);
    SubsetSize(JobSet(users) + {extra}, Holders(jobs, starts, r, |jobs|, t));
  }

  lemma UsersCoverEarlier(jobs: seq<Proposal>, starts: seq<int>, r: string, users: seq<Usage>, n: nat, t: int)
    requires n <= |jobs| == |starts| && DistinctJobs(users)
    requires forall i: nat :: i < n && Holds(jobs, starts, r, i, t) ==> Usage(i, starts[i]) in users
    ensures Active(jobs, starts, r, n, t) <= |users|
  {
    JobSetSize(users);
    HoldersCount(jobs, starts, r, n, t);
    SubsetSize(Holders(jobs, starts, r, n, t), JobSet(users));
  }

  // ---------- one tick of one resource ----------

  method Arrive(jobs: seq<Proposal>, r: string, queue: seq<nat>, t: int) returns (longer: seq<nat>)
    requires Normalized(jobs) && Ascending(queue)
    requires forall i :: i in queue ==> i < |jobs| && jobs[i].readyTick < t
    ensures Ascending(longer)
    ensures forall i: nat :: i in longer <==>
      i in queue || (i < |jobs| && jobs[i].resourceClass == r && jobs[i].readyTick == t)
  {
    longer := queue;
    for n := 0 to |jobs|
      invariant forall i: nat :: i in longer <==>
        i in queue || (i < n && jobs[i].resourceClass == r && jobs[i].readyTick == t)
      invariant Ascending(longer)
    {
      if jobs[n].resourceClass == r && jobs[n].readyTick == t {
        forall a | 0 <= a < |longer|
          ensures longer[a] < n
        {
          assert longer[a] in longer;
          assert n < longer[a] ==> Before(jobs[n], jobs[longer[a]]);
        }
        longer := longer + [n];
      }
    }
  }

  /** The record while the first `k` users are being released at tick `t`. */
  ghost predicate PartlyReleased(
    jobs: seq<Proposal>, starts: seq<int>, r: string, users: seq<Usage>, k: nat, recorded: Record, t: int)
    requires k <= |users| && |starts| == |jobs|
  {
    forall i: nat :: i < |jobs| && jobs[i].resourceClass == r ==>
      if Finish(jobs, starts, i) < t || (Finish(jobs, starts, i) == t && Usage(i, starts[i]) in users[..k]) then
        jobs[i].proposalId in recorded && recorded[jobs[i].proposalId] == DecisionAt(jobs, starts, i)
      else
        jobs[i].proposalId !in recorded
  }

  method Release(
    jobs: seq<Proposal>, r: string, users: seq<Usage>, recorded: Record, t: int, maxFinish: int,
    ghost starts: seq<int>, ghost maxWait: int)
    returns (ok: bool, staying: seq<Usage>, updated: Record)
    requires |starts| == |jobs| && DistinctIds(jobs)
    requires forall i :: 0 <= i < |jobs| ==> 0 < jobs[i].serviceTicks
    requires UsersAre(jobs, starts, r, users, t - 1) && RecordIs(jobs, starts, r, recorded, t - 1)
    requires CeilingsMet(jobs, starts, r, t - 1, t - 1, maxWait, maxFinish)
    ensures !ok ==> BreachAt(jobs, starts, maxWait, maxFinish, FinishCeilingExceeded, t)
    ensures ok ==> DistinctJobs(staying)
    ensures ok ==> forall u :: u in staying <==> u in users && t < u.start + jobs[u.job].serviceTicks
    ensures ok ==> RecordIs(jobs, starts, r, updated, t)
    ensures ok ==> SameElsewhere(jobs, r, recorded, updated)
    ensures ok ==> CeilingsMet(jobs, starts, r, t, t - 1, maxWait, maxFinish)
  {
    ok, staying, updated := true, [], recorded;
    for k := 0 to |users|
      invariant DistinctJobs(staying)
      invariant forall u :: u in staying <==> u in users[..k] && t < u.start + jobs[u.job].serviceTicks
      invariant PartlyReleased(jobs, starts, r, users, k, updated, t)
      invariant SameElsewhere(jobs, r, recorded, updated)
      invariant forall u :: u in users[..k] && u.start + jobs[u.job].serviceTicks == t ==> t <= maxFinish
    {
      var u := users[k];
      var finish := u.start + jobs[u.job].serviceTicks;
      assert finish == Finish(jobs, starts, u.job);
      assert users[..k + 1] == users[..k] + [u];
      if finish == t {
        if maxFinish < finish {
          assert BreaksAt(jobs, starts, maxWait, maxFinish, FinishCeilingExceeded, u.job, t);
          return false, staying, updated;
        }
        ghost var was := updated;
        updated := updated[jobs[u.job].proposalId := QueueDecision(
          jobs[u.job].proposalId, jobs[u.job].schedulingClass, jobs[u.job].resourceClass,
          u.start, finish, u.job + 1, jobs[u.job].expectedDisposition, false)];
        forall i: nat | i < |jobs| && i != u.job
          ensures jobs[i].proposalId != jobs[u.job].proposalId
        {
        }
      } else {
        staying := staying + [u];
      }
    }
    assert users[..|users|] == users;
    forall i: nat | i < |jobs| && jobs[i].resourceClass == r && Finish(jobs, starts, i) == t
      ensures Usage(i, starts[i]) in users
    {
      assert Holds(jobs, starts, r, i, t - 1);
    }
  }

  /** The desk while heads of the queue take free units at tick `t`. */
  ghost predicate Granting(jobs: seq<Proposal>, starts: seq<int>, r: string, desk: Desk, t: int)
    requires |starts| == |jobs|
  {
    && DistinctJobs(desk.users)
    && Ascending(desk.queue)
    && (forall u :: u in desk.users ==> u.job < |jobs| && Holds(jobs, starts, r, u.job, t) && u.start == starts[u.job])
    && (forall i: nat :: i < |jobs| && Holds(jobs, starts, r, i, t) ==>
          (Usage(i, starts[i]) in desk.users <==> i !in desk.queue))
    && (forall i :: i in desk.queue ==> Due(jobs, r, i, t) && t <= starts[i])
    && (forall i: nat :: Due(jobs, r, i, t) && t < starts[i] ==> i in desk.queue)
  }

  /** A free unit means that the head of the queue is due to start now. */
  lemma HeadStartsNow(jobs: seq<Proposal>, cap: Capacities, r: string, desk: Desk, t: int)
    requires Normalized(jobs) && Workload(jobs, cap) && r in cap
    requires Granting(jobs, GreedyStarts(jobs, cap), r, desk, t)
    requires desk.queue != [] && |desk.users| < cap[r]
    ensures desk.queue[0] < |jobs| && GreedyStarts(jobs, cap)[desk.queue[0]] == t
  {
    var starts := GreedyStarts(jobs, cap);
    var h := desk.queue[0];
    assert h in desk.queue;
    if t < starts[h] {
      WorkConserving(jobs, cap, h, t);
      forall i: nat | i < h && Holds(jobs, starts, r, i, t)
        ensures Usage(i, starts[i]) in desk.users
      {
        assert i !in desk.queue;
      }
      UsersCoverEarlier(jobs, starts, r, desk.users, h, t);
      assert false;
    }
  }

  lemma HeadTakesUnit(jobs: seq<Proposal>, starts: seq<int>, r: string, desk: Desk, t: int)
    requires |starts| == |jobs| && forall i :: 0 <= i < |jobs| ==> 0 < jobs[i].serviceTicks
    requires desk.queue != [] && desk.queue[0] < |jobs| && starts[desk.queue[0]] == t
    requires Granting(jobs, starts, r, desk, t)
    ensures Granting(jobs, starts, r, Desk(desk.users + [Usage(desk.queue[0], t)], desk.queue[1..]), t)
  {
    var head := desk.queue[0];
    assert desk.queue == [head] + desk.queue[1..];
    assert head in desk.queue && Holds(jobs, starts, r, head, t);
    assert forall u :: u in desk.users ==> u.job != head;
  }

  /** With no free unit, nothing left in the queue is due to start now. */
  lemma NoneStartsNow(jobs: seq<Proposal>, cap: Capacities, r: string, desk: Desk, t: int)
    requires Normalized(jobs) && Workload(jobs, cap) && r in cap
    requires Granting(jobs, GreedyStarts(jobs, cap), r, desk, t)
    requires desk.queue != [] ==> cap[r] <= |desk.users|
    ensures UsersAre(jobs, GreedyStarts(jobs, cap), r, desk.users, t)
    ensures QueueIs(jobs, GreedyStarts(jobs, cap), r, desk.queue, t)
  {
    var starts := GreedyStarts(jobs, cap);
    forall i | i in desk.queue
      ensures t < starts[i]
    {
      if starts[i] == t {
        assert Holds(jobs, starts, r, i, t);
        UsersWithinCapacity(jobs, starts, r, desk.users, i, t);
        GreedyCapacity(jobs, cap, r, |jobs|, t);
        assert false;
      }
    }
  }

  method Grant(jobs: seq<Proposal>, cap: Capacities, r: string, desk: Desk, t: int, maxWait: int, ghost maxFinish: int)
    returns (ok: bool, after: Desk)
    requires Normalized(jobs) && Workload(jobs, cap) && r in cap
    requires Granting(jobs, GreedyStarts(jobs, cap), r, desk, t)
    requires CeilingsMet(jobs, GreedyStarts(jobs, cap), r, t, t - 1, maxWait, maxFinish)
    requires forall i: nat :: i in desk.queue <==> Due(jobs, r, i, t) && t <= GreedyStarts(jobs, cap)[i]
    ensures !ok ==> BreachAt(jobs, GreedyStarts(jobs, cap), maxWait, maxFinish, StarvationCeilingExceeded, t)
    ensures ok ==> UsersAre(jobs, GreedyStarts(jobs, cap), r, after.users, t)
    ensures ok ==> QueueIs(jobs, GreedyStarts(jobs, cap), r, after.queue, t)
    ensures ok ==> CeilingsMet(jobs, GreedyStarts(jobs, cap), r, t, t, maxWait, maxFinish)
  {
    ghost var starts := GreedyStarts(jobs, cap);
    ok, after := true, desk;
    while after.queue != [] && |after.users| < cap[r]
      invariant Granting(jobs, starts, r, after, t)
      invariant forall i :: i in desk.queue && i !in after.queue ==> t - jobs[i].readyTick <= maxWait
      decreases |after.queue|
    {
      HeadStartsNow(jobs, cap, r, after, t);
      var head := after.queue[0];
      if maxWait < t - jobs[head].readyTick {
        assert BreaksAt(jobs, starts, maxWait, maxFinish, StarvationCeilingExceeded, head, t);
        return false, after;
      }
      HeadTakesUnit(jobs, starts, r, after, t);
      assert after.queue == [head] + after.queue[1..];
      after := Desk(after.users + [Usage(head, t)], after.queue[1..]);
    }
    NoneStartsNow(jobs, cap, r, after, t);
  }

  lemma ReadyToGrant(
    jobs: seq<Proposal>, starts: seq<int>, r: string, before: Desk, staying: seq<Usage>, longer: seq<nat>, t: int)
    requires |starts| == |jobs| && RespectsReady(jobs, starts)
    requires forall i :: 0 <= i < |jobs| ==> 0 < jobs[i].serviceTicks
    requires UsersAre(jobs, starts, r, before.users, t - 1) && QueueIs(jobs, starts, r, before.queue, t - 1)
    requires DistinctJobs(staying) && Ascending(longer)
    requires forall u :: u in staying <==> u in before.users && t < u.start + jobs[u.job].serviceTicks
    requires forall i: nat :: i in longer <==>
      i in before.queue || (i < |jobs| && jobs[i].resourceClass == r && jobs[i].readyTick == t)
    ensures Granting(jobs, starts, r, Desk(staying, longer), t)
    ensures forall i: nat :: i in longer <==> Due(jobs, r, i, t) && t <= starts[i]
  {
    forall i: nat | i < |jobs| && Holds(jobs, starts, r, i, t)
      ensures Usage(i, starts[i]) in staying <==> i !in longer
    {
      if starts[i] < t {
        assert Holds(jobs, starts, r, i, t - 1);
      }
    }
  }

  /** One resource goes through tick `t`: arrivals, then releases, then grants. */
  method ServeTick(
    jobs: seq<Proposal>, cap: Capacities, r: string, desk: Desk, recorded: Record, t: int, maxWait: int, maxFinish: int)
    returns (error: Option<PlanError>, after: Desk, updated: Record)
    requires Normalized(jobs) && Workload(jobs, cap) && DistinctIds(jobs) && r in cap
    requires Settled(jobs, GreedyStarts(jobs, cap), r, desk, recorded, t - 1)
    requires CeilingsMet(jobs, GreedyStarts(jobs, cap), r, t - 1, t - 1, maxWait, maxFinish)
    ensures error.None? ==>
      && Settled(jobs, GreedyStarts(jobs, cap), r, after, updated, t)
      && CeilingsMet(jobs, GreedyStarts(jobs, cap), r, t, t, maxWait, maxFinish)
      && SameElsewhere(jobs, r, recorded, updated)
    ensures error.Some? ==> BreachAt(jobs, GreedyStarts(jobs, cap), maxWait, maxFinish, error.value, t)
  {
    ghost var starts := GreedyStarts(jobs, cap);
    GreedyInOrder(jobs, cap);
    var longer := Arrive(jobs, r, desk.queue, t);
    var ok, staying;
    ok, staying, updated := Release(jobs, r, desk.users, recorded, t, maxFinish, starts, maxWait);
    after := Desk(staying, longer);
    if !ok {
      return Some(FinishCeilingExceeded), after, updated;
    }
    ReadyToGrant(jobs, starts, r, desk, staying, longer, t);
    ok, after := Grant(jobs, cap, r, after, t, maxWait, maxFinish);
    error := if ok then None else Some(StarvationCeilingExceeded);
  }

  // ---------- the whole run ----------

  /** All resources have completed tick `t`, and every check made by then succeeded. */
  ghost predicate AllSettled(
    jobs: seq<Proposal>, starts: seq<int>, classes: seq<string>, desks: map<string, Desk>, recorded: Record,
    t: int, maxWait: int, maxFinish: int)
    requires |starts| == |jobs|
  {
    forall r :: r in classes ==>
      && r in desks
      && Settled(jobs, starts, r, desks[r], recorded, t)
      && CeilingsMet(jobs, starts, r, t, t, maxWait, maxFinish)
  }

  lemma SettledElsewhere(
    jobs: seq<Proposal>, starts: seq<int>, r: string, other: string, desk: Desk, a: Record, b: Record, t: int)
    requires |starts| == |jobs| && other != r && SameElsewhere(jobs, r, a, b)
    requires Settled(jobs, starts, other, desk, a, t)
    ensures Settled(jobs, starts, other, desk, b, t)
  {
  }

  method RunTick(
    jobs: seq<Proposal>, cap: Capacities, classes: seq<string>, desks: map<string, Desk>, recorded: Record,
    t: int, ghost last: int, maxWait: int, maxFinish: int)
    returns (error: Option<PlanError>, after: map<string, Desk>, updated: Record)
    requires Normalized(jobs) && Workload(jobs, cap) && DistinctIds(jobs)
    requires forall r :: r in classes ==> r in cap
    requires forall a, b :: 0 <= a < b < |classes| ==> classes[a] != classes[b]
    requires last == t - 1
    requires AllSettled(jobs, GreedyStarts(jobs, cap), classes, desks, recorded, last, maxWait, maxFinish)
    ensures error.None? ==>
      AllSettled(jobs, GreedyStarts(jobs, cap), classes, after, updated, t, maxWait, maxFinish)
    ensures error.Some? ==> BreachAt(jobs, GreedyStarts(jobs, cap), maxWait, maxFinish, error.value, t)
  {
    ghost var starts := GreedyStarts(jobs, cap);
    error, after, updated := None, desks, recorded;
    for k := 0 to |classes|
      invariant error.None?
      invariant AllSettled(jobs, starts, classes[..k], after, updated, t, maxWait, maxFinish)
      invariant AllSettled(jobs, starts, classes[k..], after, updated, t - 1, maxWait, maxFinish)
    {
      var r := classes[k];
      assert r in classes[k..];
      var desk;
      ghost var was := updated;
      error, desk, updated := ServeTick(jobs, cap, r, after[r], updated, t, maxWait, maxFinish);
      if error.Some? {
        return;
      }
      forall other | other in classes[..k]
        ensures other != r && Settled(jobs, starts, other, after[other], updated, t)
      {
        SettledElsewhere(jobs, starts, r, other, after[other], was, updated, t);
      }
      forall other | other in classes[k + 1..]
        ensures other != r && other in after && Settled(jobs, starts, other, after[other], updated, t - 1)
        ensures CeilingsMet(jobs, starts, other, t - 1, t - 1, maxWait, maxFinish)
      {
        assert other in classes[k..];
        SettledElsewhere(jobs, starts, r, other, after[other], was, updated, t - 1);
      }
      after := after[r := desk];
      assert classes[..k + 1] == classes[..k] + [r];
    }
    assert classes[..|classes|] == classes;
  }

  ghost function Horizon(jobs: seq<Proposal>, starts: seq<int>, n: nat): (h: int)
    requires n <= |jobs| == |starts|
    ensures forall i :: 0 <= i < n ==> Finish(jobs, starts, i) <= h
  {
    if n == 0 then 0 else Max(Horizon(jobs, starts, n - 1), Finish(jobs, starts, n - 1))
  }

  lemma RecordedMeansFinished(
    jobs: seq<Proposal>, starts: seq<int>, classes: seq<string>, desks: map<string, Desk>, recorded: Record,
    t: int, maxWait: int, maxFinish: int, i: nat)
    requires |starts| == |jobs| && i < |jobs| && jobs[i].resourceClass in classes
    requires AllSettled(jobs, starts, classes, desks, recorded, t, maxWait, maxFinish)
    ensures jobs[i].proposalId in recorded <==> Finish(jobs, starts, i) <= t
    ensures Finish(jobs, starts, i) <= t ==> recorded[jobs[i].proposalId] == DecisionAt(jobs, starts, i)
    ensures Finish(jobs, starts, i) <= t ==> Finish(jobs, starts, i) <= maxFinish
    ensures starts[i] <= t ==> starts[i] - jobs[i].readyTick <= maxWait
  {
    var r := jobs[i].resourceClass;
    assert RecordIs(jobs, starts, r, recorded, t) && CeilingsMet(jobs, starts, r, t, t, maxWait, maxFinish);
  }

  lemma NoBreachYet(
    jobs: seq<Proposal>, starts: seq<int>, classes: seq<string>, desks: map<string, Desk>, recorded: Record,
    t: int, maxWait: int, maxFinish: int, earlier: int, error: PlanError)
    requires |starts| == |jobs| && forall i :: 0 <= i < |jobs| ==> jobs[i].resourceClass in classes
    requires AllSettled(jobs, starts, classes, desks, recorded, t, maxWait, maxFinish) && earlier <= t
    ensures !BreachAt(jobs, starts, maxWait, maxFinish, error, earlier)
  {
    forall i: nat | i < |jobs|
      ensures !BreaksAt(jobs, starts, maxWait, maxFinish, error, i, earlier)
    {
      RecordedMeansFinished(jobs, starts, classes, desks, recorded, t, maxWait, maxFinish, i);
    }
  }

  /** A breach at the tick after the settled ones is the earliest. */
  lemma BreachIsEarliest(
    jobs: seq<Proposal>, starts: seq<int>, classes: seq<string>, desks: map<string, Desk>, recorded: Record,
    t: int, maxWait: int, maxFinish: int, error: PlanError)
    requires |starts| == |jobs| && forall i :: 0 <= i < |jobs| ==> jobs[i].resourceClass in classes
    requires AllSettled(jobs, starts, classes, desks, recorded, t - 1, maxWait, maxFinish)
    requires BreachAt(jobs, starts, maxWait, maxFinish, error, t)
    ensures EarliestBreach(jobs, starts, maxWait, maxFinish, error, t)
  {
    forall earlier, other | earlier < t
      ensures !BreachAt(jobs, starts, maxWait, maxFinish, other, earlier)
    {
      NoBreachYet(jobs, starts, classes, desks, recorded, t - 1, maxWait, maxFinish, earlier, other);
    }
  }

  predicate Pending(jobs: seq<Proposal>, recorded: Record) {
    exists i :: 0 <= i < |jobs| && jobs[i].proposalId !in recorded
  }

  lemma PendingMeansMoreTicks(
    jobs: seq<Proposal>, starts: seq<int>, classes: seq<string>, desks: map<string, Desk>, recorded: Record,
    t: int, maxWait: int, maxFinish: int)
    requires |starts| == |jobs| && forall i :: 0 <= i < |jobs| ==> jobs[i].resourceClass in classes
    requires AllSettled(jobs, starts, classes, desks, recorded, t, maxWait, maxFinish)
    requires Pending(jobs, recorded)
    ensures t < Horizon(jobs, starts, |jobs|)
  {
    var i :| 0 <= i < |jobs| && jobs[i].proposalId !in recorded;
    RecordedMeansFinished(jobs, starts, classes, desks, recorded, t, maxWait, maxFinish, i);
  }

  /** `tuple(recorded[proposal.proposal_id] for proposal in proposals)` */
  function Collect(jobs: seq<Proposal>, recorded: Record): seq<QueueDecision>
    requires !Pending(jobs, recorded)
  {
    seq(|jobs|, i requires 0 <= i < |jobs| => recorded[jobs[i].proposalId])
  }

  lemma NothingPending(
    jobs: seq<Proposal>, starts: seq<int>, classes: seq<string>, desks: map<string, Desk>, recorded: Record,
    t: int, maxWait: int, maxFinish: int)
    requires |starts| == |jobs| && forall i :: 0 <= i < |jobs| ==> jobs[i].resourceClass in classes
    requires AllSettled(jobs, starts, classes, desks, recorded, t, maxWait, maxFinish)
    requires forall i :: 0 <= i < |jobs| ==> 0 <= jobs[i].serviceTicks
    requires !Pending(jobs, recorded)
    ensures IsPlan(jobs, starts, maxWait, maxFinish, Success(Collect(jobs, recorded)))
  {
    forall i | 0 <= i < |jobs|
      ensures recorded[jobs[i].proposalId] == DecisionAt(jobs, starts, i)
      ensures starts[i] - jobs[i].readyTick <= maxWait && Finish(jobs, starts, i) <= maxFinish
    {
      RecordedMeansFinished(jobs, starts, classes, desks, recorded, t, maxWait, maxFinish, i);
    }
    assert Collect(jobs, recorded) == Decisions(jobs, starts);
  }

  method Open(jobs: seq<Proposal>, cap: Capacities, classes: seq<string>, ghost maxWait: int, ghost maxFinish: int)
    returns (desks: map<string, Desk>, recorded: Record)
    requires Normalized(jobs) && Workload(jobs, cap) && forall r :: r in classes ==> r in cap
    ensures AllSettled(jobs, GreedyStarts(jobs, cap), classes, desks, recorded, -1, maxWait, maxFinish)
  {
    GreedyInOrder(jobs, cap);
    desks, recorded := map r | r in cap :: Desk([], []), map[];
  }

  /** Runs the processes of all jobs until none is left. */
  method RunProcesses(jobs: seq<Proposal>, cap: Capacities, classes: seq<string>, maxWait: int, maxFinish: int)
    returns (r: Result<seq<QueueDecision>, PlanError>)
    requires Normalized(jobs) && Workload(jobs, cap) && DistinctIds(jobs)
    requires forall resource :: resource in classes <==> resource in cap
    requires forall a, b :: 0 <= a < b < |classes| ==> classes[a] != classes[b]
    ensures IsPlan(jobs, GreedyStarts(jobs, cap), maxWait, maxFinish, r)
    ensures r.Failure? ==> FirstInTime(jobs, GreedyStarts(jobs, cap), maxWait, maxFinish, r.error)
  {
    ghost var starts := GreedyStarts(jobs, cap);
    var desks, recorded := Open(jobs, cap, classes, maxWait, maxFinish);
    var t := 0;
    ghost var last := -1;
    while Pending(jobs, recorded)
      invariant last == t - 1
      invariant AllSettled(jobs, starts, classes, desks, recorded, last, maxWait, maxFinish)
      decreases Horizon(jobs, starts, |jobs|) - t
    {
      PendingMeansMoreTicks(jobs, starts, classes, desks, recorded, last, maxWait, maxFinish);
      var error;
      ghost var desksBefore, recordedBefore := desks, recorded;
      error, desks, recorded := RunTick(jobs, cap, classes, desks, recorded, t, last, maxWait, maxFinish);
      if error.Some? {
        BreachIsEarliest(jobs, starts, classes, desksBefore, recordedBefore, t, maxWait, maxFinish, error.value);
        BreachIsPlan(jobs, starts, maxWait, maxFinish, error.value, t);
        return Failure(error.value);
      }
      last, t := t, t + 1;
    }
    NothingPending(jobs, starts, classes, desks, recorded, last, maxWait, maxFinish);
    return Success(Collect(jobs, recorded));
  }

  function ClassesOf(specs: seq<ResourceSpec>): (classes: seq<string>)
    ensures |classes| == |specs|
    ensures forall k :: 0 <= k < |specs| ==> classes[k] == specs[k].resourceClass
  {
    seq(|specs|, k requires 0 <= k < |specs| => specs[k].resourceClass)
  }

  lemma ClassesAreKeys(specs: seq<ResourceSpec>)
    requires forall spec :: spec in specs ==> ValidResource(spec)
    ensures forall r :: r in ClassesOf(specs) <==> r in CapacitiesOf(specs)
  {
    forall r
      ensures r in ClassesOf(specs) <==> r in CapacitiesOf(specs)
    {
      if r in CapacitiesOf(specs) {
        var spec :| spec in specs && spec.resourceClass == r;
        var k :| 0 <= k < |specs| && specs[k] == spec;
        assert ClassesOf(specs)[k] == r;
      }
    }
  }

  /** The ceiling that the adapter reports is the one broken first in time. */
  ghost predicate NamesEarliest(m: Manifest, r: Result<seq<QueueDecision>, PlanError>) {
    ValidManifest(m) && r.Failure? ==>
      FirstInTime(Jobs(m), PlannedStarts(m), m.maxWaitTicks, m.maxFinishTick, r.error)
  }

  /**
    `SimPyScheduleAdapter.plan`: it answers by the same specification as the reference scheduler, but where that one
    reports the first breach in normal order, the adapter reports the first in time.
   */
  method Plan(m: Manifest) returns (r: Result<seq<QueueDecision>, PlanError>)
    ensures IsPlanFor(m, r) && NamesEarliest(m, r)
  {
    if !ValidManifest(m) {
      return Failure(ManifestInvalid);
    }
    ManifestWorkload(m);
    NormalizeKeepsIds(m.proposals);
    ClassesAreKeys(m.resources);
    r := RunProcesses(
      Normalize(m.proposals), CapacitiesOf(m.resources), ClassesOf(m.resources), m.maxWaitTicks, m.maxFinishTick);
  }

  /**
    Two answers to the same manifest agree: both are the same decisions, or both are ceiling errors.
   */
  lemma PlansAgree(
      m: Manifest, reference: Result<seq<QueueDecision>, PlanError>, runtime: Result<seq<QueueDecision>, PlanError>)
    requires IsPlanFor(m, reference) && IsPlanFor(m, runtime)
    ensures reference.Success? <==> runtime.Success?
    ensures reference.Success? ==> runtime.value == reference.value
    ensures reference == Failure(ManifestInvalid) <==> runtime == Failure(ManifestInvalid)
  {
    if ValidManifest(m) && reference.Success? && runtime.Success? {
      assert reference.value == runtime.value;
    }
  }
}
