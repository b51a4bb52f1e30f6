/** Largest-remainder allocation of a population axis (`_allocate_axis` of case_manifest.py). */
module PopulationAllocation {
  import opened Wrappers
  import opened Strings

  datatype WeightedBucket = WeightedBucket(bucketId: string, weight: int)

  /** The digests of one seed and axis: of a bucket, and of an occurrence of a bucket. */
  datatype AxisDigests = AxisDigests(bucket: string -> string, occurrence: (string, int) -> string)

  datatype AllocationError = CountNotPositive | WeightsMustTotal100

  type Allocations = map<string, int>

  datatype Token = Token(hash: string, bucketId: string)

  predicate DistinctIds(buckets: seq<WeightedBucket>) {
    forall i, j :: 0 <= i < j < |buckets| ==> buckets[i].bucketId != buckets[j].bucketId
  }

  function TotalWeight(buckets: seq<WeightedBucket>, n: nat): int
    requires n <= |buckets|
  {
    if n == 0 then 0 else TotalWeight(buckets, n - 1) + buckets[n - 1].weight
  }

  function Remainder(b: WeightedBucket, count: int): (r: int)
    ensures 0 <= r < 100
  {
    count * b.weight % 100
  }

  function Floor(b: WeightedBucket, count: int): (f: int)
    ensures 100 * f + Remainder(b, count) == count * b.weight
  {
    count * b.weight / 100
  }

  // ---------- order of remainders ----------

  predicate Precedes(a: WeightedBucket, b: WeightedBucket, d: AxisDigests, count: int) {
    || Remainder(b, count) < Remainder(a, count)
    || (Remainder(a, count) == Remainder(b, count) && Less(d.bucket(a.bucketId), d.bucket(b.bucketId)))
  }

  function InsertBucket(b: WeightedBucket, sorted: seq<WeightedBucket>, d: AxisDigests, count: int):
    (r: seq<WeightedBucket>)
    ensures multiset(r) == multiset{b} + multiset(sorted)
  {
    if sorted == [] || !Precedes(sorted[0], b, d, count) then
      [b] + sorted
    else
      assert sorted == [sorted[0]] + sorted[1..];
      [sorted[0]] + InsertBucket(b, sorted[1..], d, count)
  }

  /** The buckets by falling remainder, then by digest; Python's sort is stable. */
  function RemainderOrder(buckets: seq<WeightedBucket>, d: AxisDigests, count: int): (r: seq<WeightedBucket>)
    ensures multiset(r) == multiset(buckets)
    ensures |r| == |buckets|
  {
    if buckets == [] then []
    else
      var r := InsertBucket(buckets[0], RemainderOrder(buckets[1..], d, count), d, count);
      assert buckets == [buckets[0]] + buckets[1..];
      assert |multiset(r)| == |multiset(buckets)|;
      r
  }

  ghost predicate Falling(order: seq<WeightedBucket>, count: int) {
    forall i, j :: 0 <= i < j < |order| ==> Remainder(order[j], count) <= Remainder(order[i], count)
  }

  lemma {:induction false} InsertKeepsFalling(
      b: WeightedBucket, sorted: seq<WeightedBucket>, d: AxisDigests, count: int)
    requires Falling(sorted, count)
    ensures Falling(InsertBucket(b, sorted, d, count), count)
  {
    if sorted != [] && Precedes(sorted[0], b, d, count) {
      var tail := InsertBucket(b, sorted[1..], d, count);
      InsertKeepsFalling(b, sorted[1..], d, count);
      forall j | 0 <= j < |tail|
        ensures Remainder(tail[j], count) <= Remainder(sorted[0], count)
      {
        assert tail[j] in multiset{b} + multiset(sorted[1..]);
      }
    }
  }

  lemma {:induction false} RemainderOrderFalls(buckets: seq<WeightedBucket>, d: AxisDigests, count: int)
    ensures Falling(RemainderOrder(buckets, d, count), count)
  {
    if buckets != [] {
      RemainderOrderFalls(buckets[1..], d, count);
      InsertKeepsFalling(buckets[0], RemainderOrder(buckets[1..], d, count), d, count);
    }
  }

  lemma {:induction false} InsertKeepsIds(b: WeightedBucket, sorted: seq<WeightedBucket>, d: AxisDigests, count: int)
    requires DistinctIds(sorted) && forall i :: 0 <= i < |sorted| ==> sorted[i].bucketId != b.bucketId
    ensures DistinctIds(InsertBucket(b, sorted, d, count))
  {
    if sorted != [] && Precedes(sorted[0], b, d, count) {
      var tail := InsertBucket(b, sorted[1..], d, count);
      InsertKeepsIds(b, sorted[1..], d, count);
      forall j | 0 <= j < |tail|
        ensures tail[j].bucketId != sorted[0].bucketId
      {
        assert tail[j] in multiset{b} + multiset(sorted[1..]);
      }
    }
  }

  lemma {:induction false} RemainderOrderKeepsIds(buckets: seq<WeightedBucket>, d: AxisDigests, count: int)
    requires DistinctIds(buckets)
    ensures DistinctIds(RemainderOrder(buckets, d, count))
  {
    if buckets != [] {
      var rest := RemainderOrder(buckets[1..], d, count);
      RemainderOrderKeepsIds(buckets[1..], d, count);
      forall i | 0 <= i < |rest|
        ensures rest[i].bucketId != buckets[0].bucketId
      {
        assert rest[i] in multiset(buckets[1..]);
      }
      InsertKeepsIds(buckets[0], rest, d, count);
    }
  }

  // ---------- allocations ----------

  /** The floors of the first `n` buckets; a repeated id keeps the last one. */
  function Floors(buckets: seq<WeightedBucket>, count: int, n: nat): (a: Allocations)
    requires n <= |buckets|
    ensures forall i :: 0 <= i < n ==> buckets[i].bucketId in a
  {
    if n == 0 then map[]
    else
      Floors(buckets, count, n - 1)[buckets[n - 1].bucketId := Floor(buckets[n - 1], count)]
  }

  /** Adds one for each of the first `n` buckets of `order`. */
  function Bumped(a: Allocations, order: seq<WeightedBucket>, n: nat): (r: Allocations)
    requires n <= |order| && forall i :: 0 <= i < |order| ==> order[i].bucketId in a
    ensures r.Keys == a.Keys
  {
    if n == 0 then a
    else
      var before, id := Bumped(a, order, n - 1), order[n - 1].bucketId;
      before[id := before[id] + 1]
  }

  predicate SeenBefore(buckets: seq<WeightedBucket>, n: nat)
    requires n < |buckets|
  {
    exists i :: 0 <= i < n && buckets[i].bucketId == buckets[n].bucketId
  }

  /** `sum(a.values())` for a dictionary over the ids of the first `n` buckets. */
  function SumOfValues(a: Allocations, buckets: seq<WeightedBucket>, n: nat): int
    requires n <= |buckets| && forall i :: 0 <= i < n ==> buckets[i].bucketId in a
  {
    if n == 0 then 0
    else SumOfValues(a, buckets, n - 1) + if SeenBefore(buckets, n - 1) then 0 else a[buckets[n - 1].bucketId]
  }

  /** The length of `xs[:k]`, where `xs` has length `n`. */
  function SliceLength(k: int, n: nat): (r: nat)
    ensures r <= n
  {
    if k < 0 then (if n + k < 0 then 0 else n + k) else if n < k then n else k
  }

  lemma OrderIsKnown(buckets: seq<WeightedBucket>, d: AxisDigests, count: int)
    ensures forall i :: 0 <= i < |buckets| ==> RemainderOrder(buckets, d, count)[i] in buckets
  {
    var order := RemainderOrder(buckets, d, count);
    forall i | 0 <= i < |buckets|
      ensures order[i] in buckets
    {
      assert order[i] in multiset(buckets);
    }
  }

  function Remaining(buckets: seq<WeightedBucket>, count: int): int {
    count - SumOfValues(Floors(buckets, count, |buckets|), buckets, |buckets|)
  }

  function FinalAllocations(buckets: seq<WeightedBucket>, d: AxisDigests, count: int): (a: Allocations)
    ensures forall i :: 0 <= i < |buckets| ==> buckets[i].bucketId in a
  {
    OrderIsKnown(buckets, d, count);
    Bumped(Floors(buckets, count, |buckets|), RemainderOrder(buckets, d, count),
           SliceLength(Remaining(buckets, count), |buckets|))
  }

  // ---------- tokens ----------

  function BucketIds(tokens: seq<Token>): (ids: seq<string>)
    ensures |ids| == |tokens|
  {
    seq(|tokens|, i requires 0 <= i < |tokens| => tokens[i].bucketId)
  }

  lemma BucketIdsOfConcat(a: seq<Token>, b: seq<Token>)
    ensures BucketIds(a + b) == BucketIds(a) + BucketIds(b)
  {
  }

  lemma CountWithFirst(t: Token, rest: seq<Token>)
    ensures multiset([t] + rest) == multiset{t} + multiset(rest)
    ensures multiset(BucketIds([t] + rest)) == multiset{t.bucketId} + multiset(BucketIds(rest))
  {
    BucketIdsOfConcat([t], rest);
    assert BucketIds([t]) == [t.bucketId];
  }

  predicate TokenLess(a: Token, b: Token) {
    Less(a.hash, b.hash) || (a.hash == b.hash && Less(a.bucketId, b.bucketId))
  }

  function InsertToken(t: Token, sorted: seq<Token>): (r: seq<Token>) {
    if sorted == [] || !TokenLess(sorted[0], t) then [t] + sorted
    else [sorted[0]] + InsertToken(t, sorted[1..])
  }

  /** `sorted(tokens)` */
  function SortTokens(tokens: seq<Token>): (r: seq<Token>) {
    if tokens == [] then [] else InsertToken(tokens[0], SortTokens(tokens[1..]))
  }

  lemma {:induction false} InsertTokenCounts(t: Token, sorted: seq<Token>)
    ensures multiset(InsertToken(t, sorted)) == multiset{t} + multiset(sorted)
    ensures multiset(BucketIds(InsertToken(t, sorted))) == multiset{t.bucketId} + multiset(BucketIds(sorted))
  {
    if sorted == [] || !TokenLess(sorted[0], t) {
      CountWithFirst(t, sorted);
    } else {
      InsertTokenCounts(t, sorted[1..]);
      CountWithFirst(sorted[0], InsertToken(t, sorted[1..]));
      CountWithFirst(sorted[0], sorted[1..]);
      assert sorted == [sorted[0]] + sorted[1..];
    }
  }

  /** Sorting moves tokens about, and loses and adds none. */
  lemma {:induction false} SortTokensCounts(tokens: seq<Token>)
    ensures multiset(SortTokens(tokens)) == multiset(tokens)
    ensures multiset(BucketIds(SortTokens(tokens))) == multiset(BucketIds(tokens))
  {
    if tokens != [] {
      SortTokensCounts(tokens[1..]);
      InsertTokenCounts(tokens[0], SortTokens(tokens[1..]));
      CountWithFirst(tokens[0], tokens[1..]);
      assert tokens == [tokens[0]] + tokens[1..];
    }
  }

  predicate Ascending(tokens: seq<Token>) {
    forall i, j :: 0 <= i < j < |tokens| ==> !TokenLess(tokens[j], tokens[i])
  }

  lemma TokenOrder(a: Token, b: Token, c: Token)
    ensures TokenLess(a, b) ==> !TokenLess(b, a)
    ensures !TokenLess(b, a) && !TokenLess(c, b) ==> !TokenLess(c, a)
  {
    LessTotal(a.hash, b.hash);
    LessTotal(b.hash, c.hash);
    LessTotal(a.hash, c.hash);
    LessTotal(a.bucketId, b.bucketId);
    LessTotal(b.bucketId, c.bucketId);
    LessTotal(a.bucketId, c.bucketId);
    if Less(a.hash, b.hash) && Less(b.hash, c.hash) {
      LessTransitive(a.hash, b.hash, c.hash);
    }
    if Less(a.bucketId, b.bucketId) && Less(b.bucketId, c.bucketId) {
      LessTransitive(a.bucketId, b.bucketId, c.bucketId);
    }
  }

  lemma {:induction false} InsertKeepsAscending(t: Token, sorted: seq<Token>)
    requires Ascending(sorted)
    ensures Ascending(InsertToken(t, sorted))
  {
    if sorted == [] || !TokenLess(sorted[0], t) {
      forall j | 0 <= j < |sorted|
        ensures !TokenLess(sorted[j], t)
      {
        TokenOrder(t, sorted[0], sorted[j]);
      }
    } else {
      var rest := InsertToken(t, sorted[1..]);
      InsertKeepsAscending(t, sorted[1..]);
      InsertTokenCounts(t, sorted[1..]);
      forall j | 0 <= j < |rest|
        ensures !TokenLess(rest[j], sorted[0])
      {
        assert rest[j] in multiset{t} + multiset(sorted[1..]);
        TokenOrder(sorted[0], t, t);
      }
    }
  }

  lemma {:induction false} SortTokensAscends(tokens: seq<Token>)
    ensures Ascending(SortTokens(tokens))
  {
    if tokens != [] {
      SortTokensAscends(tokens[1..]);
      InsertKeepsAscending(tokens[0], SortTokens(tokens[1..]));
    }
  }

  function Occurrences(id: string, d: AxisDigests, n: nat): (tokens: seq<Token>)
    ensures |tokens| == n && forall i :: 0 <= i < n ==> tokens[i].bucketId == id
  {
    if n == 0 then [] else Occurrences(id, d, n - 1) + [Token(d.occurrence(id, n - 1), id)]
  }

  function AtLeastZero(x: int): (n: nat)
    ensures n as int == x || (x < 0 && n == 0)
  {
    if x < 0 then 0 else x
  }

  /** The tokens of the first `n` buckets. */
  function AllTokens(buckets: seq<WeightedBucket>, a: Allocations, d: AxisDigests, n: nat): seq<Token>
    requires n <= |buckets| && forall i :: 0 <= i < n ==> buckets[i].bucketId in a
  {
    if n == 0 then []
    else
      var id := buckets[n - 1].bucketId;
      AllTokens(buckets, a, d, n - 1) + Occurrences(id, d, AtLeastZero(a[id]))
  }

  function Sequence(buckets: seq<WeightedBucket>, d: AxisDigests, count: int): seq<string> {
    BucketIds(SortTokens(AllTokens(buckets, FinalAllocations(buckets, d, count), d, |buckets|)))
  }

  // ---------- the loops ----------

  method TakeFloors(buckets: seq<WeightedBucket>, count: int) returns (floors: Allocations)
    ensures floors == Floors(buckets, count, |buckets|)
  {
    floors := map[];
    for i := 0 to |buckets|
      invariant floors == Floors(buckets, count, i)
    {
      floors := floors[buckets[i].bucketId := Floor(buckets[i], count)];
    }
  }

  method SumWeights(buckets: seq<WeightedBucket>) returns (total: int)
    ensures total == TotalWeight(buckets, |buckets|)
  {
    total := 0;
    for i := 0 to |buckets|
      invariant total == TotalWeight(buckets, i)
    {
      total := total + buckets[i].weight;
    }
  }

  method ListOccurrences(id: string, d: AxisDigests, n: nat) returns (tokens: seq<Token>)
    ensures tokens == Occurrences(id, d, n)
  {
    tokens := [];
    for index := 0 to n
      invariant tokens == Occurrences(id, d, index)
    {
      tokens := tokens + [Token(d.occurrence(id, index), id)];
    }
  }

  method ListTokens(buckets: seq<WeightedBucket>, a: Allocations, d: AxisDigests) returns (tokens: seq<Token>)
    requires forall i :: 0 <= i < |buckets| ==> buckets[i].bucketId in a
    ensures tokens == AllTokens(buckets, a, d, |buckets|)
  {
    tokens := [];
    for i := 0 to |buckets|
      invariant tokens == AllTokens(buckets, a, d, i)
    {
      var id := buckets[i].bucketId;
      var own := ListOccurrences(id, d, AtLeastZero(a[id]));
      tokens := tokens + own;
    }
  }

  /** `_allocate_axis` */
  method AllocateAxis(buckets: seq<WeightedBucket>, d: AxisDigests, count: int)
    returns (r: Result<seq<string>, AllocationError>)
    ensures r.Failure? <==> count < 1 || TotalWeight(buckets, |buckets|) != 100
    ensures r.Failure? ==> r.error == if count < 1 then CountNotPositive else WeightsMustTotal100
    ensures r.Success? ==> r.value == Sequence(buckets, d, count)
  {
    if count < 1 {
      return Failure(CountNotPositive);
    }
    var total := SumWeights(buckets);
    if total != 100 {
      return Failure(WeightsMustTotal100);
    }
    var allocations := TakeFloors(buckets, count);
    var order := RemainderOrder(buckets, d, count);
    var bumps := SliceLength(Remaining(buckets, count), |buckets|);
    OrderIsKnown(buckets, d, count);
    ghost var floors := allocations;
    for i := 0 to bumps
      invariant allocations == Bumped(floors, order, i)
    {
      var id := order[i].bucketId;
      allocations := allocations[id := allocations[id] + 1];
    }
    var tokens := ListTokens(buckets, allocations, d);
    return Success(BucketIds(SortTokens(tokens)));
  }

  // ---------- shares ----------

  function Share(buckets: seq<WeightedBucket>, d: AxisDigests, count: int, i: nat): int
    requires i < |buckets|
  {
    FinalAllocations(buckets, d, count)[buckets[i].bucketId]
  }

  /** Buckets that share an id have no weight. */
  ghost predicate RepeatsWeighNothing(buckets: seq<WeightedBucket>) {
    forall i, j :: 0 <= i < j < |buckets| && buckets[i].bucketId == buckets[j].bucketId ==>
      buckets[i].weight == 0 && buckets[j].weight == 0
  }

  lemma {:induction false} FloorOf(buckets: seq<WeightedBucket>, count: int, n: nat, i: nat)
    requires RepeatsWeighNothing(buckets) && i < n <= |buckets|
    ensures Floors(buckets, count, n)[buckets[i].bucketId] == Floor(buckets[i], count)
  {
    if buckets[n - 1].bucketId == buckets[i].bucketId {
      if i < n - 1 {
        assert buckets[i].weight == 0 && buckets[n - 1].weight == 0;
      }
    } else {
      FloorOf(buckets, count, n - 1, i);
    }
  }

  ghost predicate AmongFirst(order: seq<WeightedBucket>, n: nat, id: string)
    requires n <= |order|
  {
    exists j :: 0 <= j < n && order[j].bucketId == id
  }

  /** How many of the first `n` buckets of an order have the id. */
  function Bumps(order: seq<WeightedBucket>, n: nat, id: string): (r: nat)
    requires n <= |order|
    ensures r <= n
  {
    if n == 0 then 0 else Bumps(order, n - 1, id) + if order[n - 1].bucketId == id then 1 else 0
  }

  lemma {:induction false} BumpedByCount(a: Allocations, order: seq<WeightedBucket>, n: nat, id: string)
    requires n <= |order| && id in a && forall i :: 0 <= i < |order| ==> order[i].bucketId in a
    ensures Bumped(a, order, n)[id] == a[id] + Bumps(order, n, id)
  {
    if n != 0 {
      BumpedByCount(a, order, n - 1, id);
    }
  }

  lemma {:induction false} BumpsOnce(order: seq<WeightedBucket>, n: nat, id: string)
    requires DistinctIds(order) && n <= |order|
    ensures Bumps(order, n, id) == if AmongFirst(order, n, id) then 1 else 0
  {
    if n != 0 {
      BumpsOnce(order, n - 1, id);
      if AmongFirst(order, n, id) && order[n - 1].bucketId != id {
        assert AmongFirst(order, n - 1, id);
      }
    }
  }

  /** Summing one more than before at a single id. */
  lemma {:induction false} SumAfterBump(a: Allocations, buckets: seq<WeightedBucket>, n: nat, k: nat)
    requires DistinctIds(buckets) && n <= |buckets| && k < |buckets|
    requires forall i :: 0 <= i < |buckets| ==> buckets[i].bucketId in a
    ensures
      var id := buckets[k].bucketId;
      SumOfValues(a[id := a[id] + 1], buckets, n) == SumOfValues(a, buckets, n) + if k < n then 1 else 0
  {
    if n != 0 {
      SumAfterBump(a, buckets, n - 1, k);
    }
  }

  lemma {:induction false} SumAfterBumps(
      a: Allocations, buckets: seq<WeightedBucket>, order: seq<WeightedBucket>, n: nat)
    requires DistinctIds(buckets) && n <= |order| && multiset(order) == multiset(buckets)
    requires forall i :: 0 <= i < |buckets| ==> buckets[i].bucketId in a
    requires forall i :: 0 <= i < |order| ==> order[i].bucketId in a
    ensures SumOfValues(Bumped(a, order, n), buckets, |buckets|) == SumOfValues(a, buckets, |buckets|) + n
  {
    if n != 0 {
      SumAfterBumps(a, buckets, order, n - 1);
      assert order[n - 1] in multiset(buckets);
      var k :| 0 <= k < |buckets| && buckets[k] == order[n - 1];
      SumAfterBump(Bumped(a, order, n - 1), buckets, |buckets|, k);
    }
  }

  function SumOfRemainders(buckets: seq<WeightedBucket>, count: int, n: nat): (r: nat)
    requires n <= |buckets|
    ensures 0 < n ==> r < 100 * n
  {
    if n == 0 then 0 else SumOfRemainders(buckets, count, n - 1) + Remainder(buckets[n - 1], count)
  }

  /** The values at the ids of the first `n` buckets, repeated ids counted each time. */
  function SumOverBuckets(a: Allocations, buckets: seq<WeightedBucket>, n: nat): int
    requires n <= |buckets| && forall i :: 0 <= i < n ==> buckets[i].bucketId in a
  {
    if n == 0 then 0 else SumOverBuckets(a, buckets, n - 1) + a[buckets[n - 1].bucketId]
  }

  /** With harmless repeats, both sums of the floors are the sum of the buckets' own floors. */
  lemma {:induction false} FloorsAndRemainders(buckets: seq<WeightedBucket>, count: int, n: nat)
    requires RepeatsWeighNothing(buckets) && n <= |buckets|
    ensures
      var floors := Floors(buckets, count, |buckets|);
      && 100 * SumOfValues(floors, buckets, n) + SumOfRemainders(buckets, count, n) == count * TotalWeight(buckets, n)
      && SumOverBuckets(floors, buckets, n) == SumOfValues(floors, buckets, n)
  {
    if n != 0 {
      var w := buckets[n - 1].weight;
      FloorsAndRemainders(buckets, count, n - 1);
      FloorOf(buckets, count, |buckets|, n - 1);
      assert count * (TotalWeight(buckets, n - 1) + w) == count * TotalWeight(buckets, n - 1) + count * w;
      if SeenBefore(buckets, n - 1) {
        SeenWeighsNothing(buckets, n - 1);
      }
    }
  }

  lemma SeenWeighsNothing(buckets: seq<WeightedBucket>, n: nat)
    requires RepeatsWeighNothing(buckets) && n < |buckets| && SeenBefore(buckets, n)
    ensures buckets[n].weight == 0
    ensures forall count :: Floor(buckets[n], count) == 0 && Remainder(buckets[n], count) == 0
  {
    var i :| 0 <= i < n && buckets[i].bucketId == buckets[n].bucketId;
  }

  /** Between none and all but one of the buckets are bumped. */
  lemma RemainingIsSmall(buckets: seq<WeightedBucket>, count: int)
    requires DistinctIds(buckets) && TotalWeight(buckets, |buckets|) == 100
    ensures 0 <= Remaining(buckets, count) < |buckets|
  {
    FloorsAndRemainders(buckets, count, |buckets|);
  }

  /** The shares total the population. */
  lemma SharesTotalCount(buckets: seq<WeightedBucket>, d: AxisDigests, count: int)
    requires DistinctIds(buckets) && TotalWeight(buckets, |buckets|) == 100
    ensures SumOfValues(FinalAllocations(buckets, d, count), buckets, |buckets|) == count
  {
    RemainingIsSmall(buckets, count);
    OrderIsKnown(buckets, d, count);
    SumAfterBumps(Floors(buckets,
      count, |buckets|), buckets, RemainderOrder(buckets, d, count), Remaining(buckets, count));
  }

  /**
    A share is the floor of the exact share, and one more iff the bucket is among the first in the order of
    remainders.
   */
  lemma ShareValue(buckets: seq<WeightedBucket>, d: AxisDigests, count: int, i: nat)
    requires DistinctIds(buckets) && TotalWeight(buckets, |buckets|) == 100 && i < |buckets|
    ensures 0 <= Remaining(buckets, count) < |buckets|
    ensures Share(buckets, d, count, i) == Floor(buckets[i], count)
      + if AmongFirst(RemainderOrder(buckets, d, count), Remaining(buckets, count), buckets[i].bucketId) then 1 else 0
  {
    RemainingIsSmall(buckets, count);
    OrderIsKnown(buckets, d, count);
    RemainderOrderKeepsIds(buckets, d, count);
    FloorOf(buckets, count, |buckets|, i);
    var order, n, id := RemainderOrder(buckets, d, count), Remaining(buckets, count), buckets[i].bucketId;
    BumpedByCount(Floors(buckets, count, |buckets|), order, n, id);
    BumpsOnce(order, n, id);
  }

  // ---------- shares are optimal ----------

  function Distance(alloc: int, exact: int): (r: int) {
    if 100 * alloc < exact then exact - 100 * alloc else 100 * alloc - exact
  }

  /** A hundred times the total distance of an allocation from the exact shares of the first `n` buckets. */
  function Deviation(buckets: seq<WeightedBucket>, count: int, allocs: seq<int>, n: nat): int
    requires n <= |buckets| && |allocs| == |buckets|
  {
    if n == 0 then 0
    else Deviation(buckets, count, allocs, n - 1) + Distance(allocs[n - 1], count * buckets[n - 1].weight)
  }

  function Total(allocs: seq<int>, n: nat): int
    requires n <= |allocs|
  {
    if n == 0 then 0 else Total(allocs, n - 1) + allocs[n - 1]
  }

  function Shares(buckets: seq<WeightedBucket>, d: AxisDigests, count: int): (shares: seq<int>)
    ensures |shares| == |buckets|
  {
    seq(|buckets|, i requires 0 <= i < |buckets| => Share(buckets, d, count, i))
  }

  lemma {:induction false} TotalOfShares(buckets: seq<WeightedBucket>, d: AxisDigests, count: int, n: nat)
    requires DistinctIds(buckets) && n <= |buckets|
    ensures Total(Shares(buckets, d, count), n) == SumOfValues(FinalAllocations(buckets, d, count), buckets, n)
  {
    if n != 0 {
      TotalOfShares(buckets, d, count, n - 1);
    }
  }

  /** Every bumped remainder is at least `level`, and every other remainder at most. */
  ghost predicate IsLevel(buckets: seq<WeightedBucket>, d: AxisDigests, count: int, level: int)
  {
    forall i :: 0 <= i < |buckets| ==> OnItsSide(buckets, d, count, level, i)
  }

  ghost predicate OnItsSide(buckets: seq<WeightedBucket>, d: AxisDigests, count: int, level: int, i: nat)
    requires i < |buckets|
  {
    var floor, share, rem := Floor(buckets[i], count), Share(buckets, d, count, i), Remainder(buckets[i], count);
    (share == floor + 1 && level <= rem) || (share == floor && rem <= level)
  }

  /** In a falling order, the first `n` remainders are at least the last of them, and the others at most. */
  lemma LevelSplits(order: seq<WeightedBucket>, count: int, n: nat, j: nat)
    requires Falling(order, count) && DistinctIds(order) && j < |order| && n < |order|
    ensures
      var level := if n == 0 then 100 else Remainder(order[n - 1], count);
      && (AmongFirst(order, n, order[j].bucketId) <==> j < n)
      && (j < n ==> level <= Remainder(order[j], count))
      && (n <= j ==> Remainder(order[j], count) <= level)
  {
  }

  lemma OnItsSideAt(buckets: seq<WeightedBucket>, d: AxisDigests, count: int, level: int, i: nat)
    requires DistinctIds(buckets) && TotalWeight(buckets, |buckets|) == 100 && i < |buckets|
    requires 0 <= Remaining(buckets, count) < |buckets|
    requires
      var n := Remaining(buckets, count);
      level == if n == 0 then 100 else Remainder(RemainderOrder(buckets, d, count)[n - 1], count)
    ensures OnItsSide(buckets, d, count, level, i)
  {
    var order, n := RemainderOrder(buckets, d, count), Remaining(buckets, count);
    ShareValue(buckets, d, count, i);
    RemainderOrderFalls(buckets, d, count);
    RemainderOrderKeepsIds(buckets, d, count);
    assert buckets[i] in multiset(order);
    var j :| 0 <= j < |order| && order[j] == buckets[i];
    LevelSplits(order, count, n, j);
  }

  /** The last bumped remainder is such a level. */
  lemma LevelExists(buckets: seq<WeightedBucket>, d: AxisDigests, count: int) returns (level: int)
    requires DistinctIds(buckets) && TotalWeight(buckets, |buckets|) == 100
    ensures 0 <= level <= 100 && IsLevel(buckets, d, count, level)
  {
    var n := Remaining(buckets, count);
    RemainingIsSmall(buckets, count);
    level := if n == 0 then 100 else Remainder(RemainderOrder(buckets, d, count)[n - 1], count);
    forall i | 0 <= i < |buckets|
      ensures OnItsSide(buckets, d, count, level, i)
    {
      OnItsSideAt(buckets, d, count, level, i);
    }
  }

  lemma {:induction false} ProductBound(price: int, steps: nat)
    requires price <= 100
    ensures price * steps <= 100 * steps
  {
    if steps != 0 {
      ProductBound(price, steps - 1);
      assert price * steps == price * (steps - 1) + price;
    }
  }

  /** The first step costs `price`, and every further one at most a hundred. */
  lemma PriceOfGap(price: int, gap: int)
    requires -100 <= price <= 100
    ensures 0 < gap ==> price * gap <= price + 100 * (gap - 1)
    ensures gap < 0 ==> price * gap <= -price + 100 * (-gap - 1)
  {
    if 0 < gap {
      ProductBound(price, gap - 1);
      assert price * gap == price * (gap - 1) + price;
    } else if gap < 0 {
      ProductBound(-price, -gap - 1);
      assert price * gap == -price * (-gap - 1) - price;
    }
  }

  /** No integer does better at one bucket than its share, at the price that `level` sets. */
  lemma NoBetterAtOne(exact: int, floor: int, rem: int, share: int, level: int, alt: int)
    requires exact == 100 * floor + rem && 0 <= rem < 100
    requires (share == floor + 1 && level <= rem) || (share == floor && rem <= level)
    requires 0 <= level <= 100
    ensures Distance(share, exact) + (100 - 2 * level) * (alt - share) <= Distance(alt, exact)
  {
    PriceOfGap(100 - 2 * level, alt - share);
    var cost := (100 - 2 * level) * (alt - share);
    assert alt == share ==> cost == 0;
  }

  lemma {:induction false} NoBetterUpTo(
      buckets: seq<WeightedBucket>, d: AxisDigests, count: int, level: int, alt: seq<int>, n: nat)
    requires n <= |buckets| == |alt| && 0 <= level <= 100 && IsLevel(buckets, d, count, level)
    ensures
      var shares := Shares(buckets, d, count);
      Deviation(buckets, count, shares, n) + (100 - 2 * level) * (Total(alt, n) - Total(shares, n))
        <= Deviation(buckets, count, alt, n)
  {
    if n != 0 {
      var shares, price, k := Shares(buckets, d, count), 100 - 2 * level, n - 1;
      NoBetterUpTo(buckets, d, count, level, alt, k);
      assert OnItsSide(buckets, d, count, level, k);
      NoBetterAtOne(count * buckets[k].weight, Floor(buckets[k], count), Remainder(buckets[k], count),
        shares[k], level, alt[k]);
      var before, here := Total(alt, k) - Total(shares, k), alt[k] - shares[k];
      assert price * (before + here) == price * before + price * here;
    }
  }

  /** No allocation of the same total, of whatever integers, is nearer to the exact shares. */
  lemma SharesAreOptimal(buckets: seq<WeightedBucket>, d: AxisDigests, count: int, alt: seq<int>)
    requires DistinctIds(buckets) && TotalWeight(buckets, |buckets|) == 100
    requires |alt| == |buckets| && Total(alt, |alt|) == count
    ensures Deviation(buckets, count, Shares(buckets, d, count), |buckets|) <= Deviation(buckets, count, alt, |buckets|)
  {
    var level := LevelExists(buckets, d, count);
    SharesTotalCount(buckets, d, count);
    TotalOfShares(buckets, d, count, |buckets|);
    NoBetterUpTo(buckets, d, count, level, alt, |buckets|);
  }

  lemma FloorIsNear(b: WeightedBucket, count: int)
    ensures -100 < 100 * Floor(b, count) - count * b.weight <= 0
    ensures 0 <= count && 0 <= b.weight ==> 0 <= Floor(b, count)
  {
    if 0 <= count && 0 <= b.weight {
      assert 0 <= count * b.weight;
    }
  }

  /** At level zero every bucket that is not bumped divides evenly. */
  lemma {:induction false} RemaindersAtLevelZero(buckets: seq<WeightedBucket>, d: AxisDigests, count: int, n: nat)
    requires DistinctIds(buckets) && n <= |buckets| && IsLevel(buckets, d, count, 0)
    ensures SumOfRemainders(buckets, count, n)
         <= 99 * (Total(Shares(buckets, d, count), n) - SumOfValues(Floors(buckets, count, |buckets|), buckets, n))
  {
    if n != 0 {
      RemaindersAtLevelZero(buckets, d, count, n - 1);
      FloorOf(buckets, count, |buckets|, n - 1);
      assert OnItsSide(buckets, d, count, 0, n - 1);
    }
  }

  /** The remainders total a hundred for each bump, so no bump goes to a bucket without remainder. */
  lemma LevelZeroMeansNoBump(buckets: seq<WeightedBucket>, d: AxisDigests, count: int)
    requires DistinctIds(buckets) && TotalWeight(buckets, |buckets|) == 100 && IsLevel(buckets, d, count, 0)
    ensures Remaining(buckets, count) == 0
  {
    var n := |buckets|;
    RemaindersAtLevelZero(buckets, d, count, n);
    TotalOfShares(buckets, d, count, n);
    SharesTotalCount(buckets, d, count);
    FloorsAndRemainders(buckets, count, n);
  }

  /** Every share is the floor or the ceiling of the exact share: it is within less than one of it. */
  lemma ShareIsFloorOrCeiling(buckets: seq<WeightedBucket>, d: AxisDigests, count: int, i: nat)
    requires DistinctIds(buckets) && TotalWeight(buckets, |buckets|) == 100 && i < |buckets|
    ensures -100 < 100 * Share(buckets, d, count, i) - count * buckets[i].weight < 100
  {
    var level := LevelExists(buckets, d, count);
    assert OnItsSide(buckets, d, count, level, i);
    if level == 0 {
      LevelZeroMeansNoBump(buckets, d, count);
    }
    ShareValue(buckets, d, count, i);
    FloorIsNear(buckets[i], count);
  }

  // ---------- what is returned ----------

  lemma {:induction false} TokensOfOther(
      buckets: seq<WeightedBucket>, a: Allocations, d: AxisDigests, n: nat, id: string)
    requires n <= |buckets| && forall i :: 0 <= i < n ==> buckets[i].bucketId in a
    requires forall i :: 0 <= i < n ==> buckets[i].bucketId != id
    ensures multiset(BucketIds(AllTokens(buckets, a, d, n)))[id] == 0
  {
    if n != 0 {
      TokensOfOther(buckets, a, d, n - 1, id);
      var own := Occurrences(buckets[n - 1].bucketId, d, AtLeastZero(a[buckets[n - 1].bucketId]));
      BucketIdsOfConcat(AllTokens(buckets, a, d, n - 1), own);
      assert id !in BucketIds(own);
    }
  }

  lemma {:induction false} CountOfConstant(ids: seq<string>, id: string)
    requires forall i :: 0 <= i < |ids| ==> ids[i] == id
    ensures multiset(ids)[id] == |ids|
  {
    if ids != [] {
      CountOfConstant(ids[1..], id);
      assert ids == [ids[0]] + ids[1..];
    }
  }

  lemma {:induction false} TokensOf(buckets: seq<WeightedBucket>, a: Allocations, d: AxisDigests, n: nat, k: nat)
    requires DistinctIds(buckets) && k < n <= |buckets| && forall i :: 0 <= i < n ==> buckets[i].bucketId in a
    ensures multiset(BucketIds(AllTokens(buckets, a, d, n)))[buckets[k].bucketId] == AtLeastZero(a[buckets[k].bucketId])
  {
    var id := buckets[k].bucketId;
    var own := Occurrences(buckets[n - 1].bucketId, d, AtLeastZero(a[buckets[n - 1].bucketId]));
    BucketIdsOfConcat(AllTokens(buckets, a, d, n - 1), own);
    if k == n - 1 {
      TokensOfOther(buckets, a, d, n - 1, id);
      CountOfConstant(BucketIds(own), id);
    } else {
      TokensOf(buckets, a, d, n - 1, k);
      assert id !in BucketIds(own);
    }
  }

  /** The returned sequence holds every bucket as often as its share says, and nothing else. */
  lemma SequenceHoldsShares(buckets: seq<WeightedBucket>, d: AxisDigests, count: int)
    requires DistinctIds(buckets)
    ensures forall k :: 0 <= k < |buckets| ==>
      multiset(Sequence(buckets, d, count))[buckets[k].bucketId] == AtLeastZero(Share(buckets, d, count, k))
    ensures forall id :: id in Sequence(buckets, d, count) ==>
      exists k :: 0 <= k < |buckets| && buckets[k].bucketId == id
  {
    var a := FinalAllocations(buckets, d, count);
    SortTokensCounts(AllTokens(buckets, a, d, |buckets|));
    forall k | 0 <= k < |buckets|
      ensures multiset(Sequence(buckets, d, count))[buckets[k].bucketId] == AtLeastZero(Share(buckets, d, count, k))
    {
      TokensOf(buckets, a, d, |buckets|, k);
    }
    forall id | id in Sequence(buckets, d, count)
      ensures exists k :: 0 <= k < |buckets| && buckets[k].bucketId == id
    {
      assert id in multiset(Sequence(buckets, d, count));
      if forall k :: 0 <= k < |buckets| ==> buckets[k].bucketId != id {
        TokensOfOther(buckets, a, d, |buckets|, id);
      }
    }
  }

  lemma SortKeepsLength(tokens: seq<Token>)
    ensures |SortTokens(tokens)| == |tokens|
  {
    SortTokensCounts(tokens);
    assert |multiset(SortTokens(tokens))| == |multiset(tokens)|;
  }

  // ---------- order of bumps and of the sequence, over the fields ----------

  ghost predicate Ordered(order: seq<WeightedBucket>, d: AxisDigests, count: int) {
    forall i, j :: 0 <= i < j < |order| ==> !Precedes(order[j], order[i], d, count)
  }

  lemma PrecedesIsOrder(a: WeightedBucket, b: WeightedBucket, c: WeightedBucket, d: AxisDigests, count: int)
    ensures Precedes(a, b, d, count) ==> !Precedes(b, a, d, count)
    ensures !Precedes(b, a, d, count) && !Precedes(c, b, d, count) ==> !Precedes(c, a, d, count)
  {
    var x, y, z := d.bucket(a.bucketId), d.bucket(b.bucketId), d.bucket(c.bucketId);
    LessTotal(x, y);
    LessTotal(y, z);
    LessTotal(x, z);
    if Less(x, y) && Less(y, z) {
      LessTransitive(x, y, z);
    }
  }

  lemma {:induction false} InsertKeepsOrdered(
      b: WeightedBucket, sorted: seq<WeightedBucket>, d: AxisDigests, count: int)
    requires Ordered(sorted, d, count)
    ensures Ordered(InsertBucket(b, sorted, d, count), d, count)
  {
    if sorted == [] || !Precedes(sorted[0], b, d, count) {
      forall j | 0 <= j < |sorted|
        ensures !Precedes(sorted[j], b, d, count)
      {
        PrecedesIsOrder(b, sorted[0], sorted[j], d, count);
      }
    } else {
      var rest := InsertBucket(b, sorted[1..], d, count);
      InsertKeepsOrdered(b, sorted[1..], d, count);
      forall j | 0 <= j < |rest|
        ensures !Precedes(rest[j], sorted[0], d, count)
      {
        assert rest[j] in multiset{b} + multiset(sorted[1..]);
        PrecedesIsOrder(sorted[0], b, b, d, count);
      }
    }
  }

  lemma {:induction false} RemainderOrderIsOrdered(buckets: seq<WeightedBucket>, d: AxisDigests, count: int)
    ensures Ordered(RemainderOrder(buckets, d, count), d, count)
  {
    if buckets != [] {
      RemainderOrderIsOrdered(buckets[1..], d, count);
      InsertKeepsOrdered(buckets[0], RemainderOrder(buckets[1..], d, count), d, count);
    }
  }

  /** Who is bumped first: the bucket with the larger remainder, and on a tie the one with the smaller digest. */
  lemma BumpOrder(buckets: seq<WeightedBucket>, d: AxisDigests, count: int, i: nat, j: nat)
    requires i < j < |buckets|
    ensures
      var a, b := RemainderOrder(buckets, d, count)[i], RemainderOrder(buckets, d, count)[j];
      var x, y := d.bucket(a.bucketId), d.bucket(b.bucketId);
      || count * b.weight % 100 < count * a.weight % 100
      || (count * a.weight % 100 == count * b.weight % 100 && (x == y || Less(x, y)))
  {
    var order := RemainderOrder(buckets, d, count);
    RemainderOrderIsOrdered(buckets, d, count);
    assert !Precedes(order[j], order[i], d, count);
    LessTotal(d.bucket(order[i].bucketId), d.bucket(order[j].bucketId));
  }

  /** The token of occurrence `k` of bucket `i`. */
  ghost predicate IsOccurrence(buckets: seq<WeightedBucket>, a: Allocations, d: AxisDigests, t: Token, i: nat, k: nat)
    requires i < |buckets| && forall j :: 0 <= j < |buckets| ==> buckets[j].bucketId in a
  {
    var id := buckets[i].bucketId;
    k < a[id] && t == Token(d.occurrence(id, k), id)
  }

  lemma {:induction false} OccurrencesAre(id: string, d: AxisDigests, n: nat, t: Token)
    ensures t in Occurrences(id, d, n) <==> exists k: nat :: k < n && t == Token(d.occurrence(id, k), id)
  {
    if n != 0 {
      OccurrencesAre(id, d, n - 1, t);
    }
  }

  lemma {:induction false} TokensAreOccurrences(
      buckets: seq<WeightedBucket>, a: Allocations, d: AxisDigests, n: nat, t: Token)
    requires n <= |buckets| && forall j :: 0 <= j < |buckets| ==> buckets[j].bucketId in a
    ensures t in AllTokens(buckets, a, d, n) <==>
      exists i: nat, k: nat :: i < n && IsOccurrence(buckets, a, d, t, i, k)
  {
    if n != 0 {
      var id := buckets[n - 1].bucketId;
      TokensAreOccurrences(buckets, a, d, n - 1, t);
      OccurrencesAre(id, d, AtLeastZero(a[id]), t);
      if k: nat :| k < AtLeastZero(a[id]) && t == Token(d.occurrence(id, k), id) {
        assert IsOccurrence(buckets, a, d, t, n - 1, k);
      }
    }
  }

  /**
    The returned sequence lists the buckets of the occurrences in the order of their digests, and on a tie of their
    ids; the occurrences of a bucket are numbered from zero up to its share.
   */
  lemma SequenceFollowsDigests(buckets: seq<WeightedBucket>, d: AxisDigests, count: int) returns (tokens: seq<Token>)
    ensures |tokens| == |Sequence(buckets, d, count)|
    ensures forall i :: 0 <= i < |tokens| ==> Sequence(buckets, d, count)[i] == tokens[i].bucketId
    ensures forall i, j :: 0 <= i < j < |tokens| ==>
      || Less(tokens[i].hash, tokens[j].hash)
      || (tokens[i].hash == tokens[j].hash
          && (tokens[i].bucketId == tokens[j].bucketId || Less(tokens[i].bucketId, tokens[j].bucketId)))
    ensures forall t :: t in tokens <==>
      exists i: nat, k: nat :: i < |buckets| && IsOccurrence(buckets, FinalAllocations(buckets, d, count), d, t, i, k)
  {
    var all := AllTokens(buckets, FinalAllocations(buckets, d, count), d, |buckets|);
    tokens := SortTokens(all);
    SortTokensAscends(all);
    SortTokensCounts(all);
    forall i, j | 0 <= i < j < |tokens|
      ensures
        || Less(tokens[i].hash, tokens[j].hash)
        || (tokens[i].hash == tokens[j].hash
            && (tokens[i].bucketId == tokens[j].bucketId || Less(tokens[i].bucketId, tokens[j].bucketId)))
    {
      assert !TokenLess(tokens[j], tokens[i]);
      LessTotal(tokens[i].hash, tokens[j].hash);
      LessTotal(tokens[i].bucketId, tokens[j].bucketId);
    }
    forall t
      ensures t in tokens <==>
        exists i: nat, k: nat :: i < |buckets| && IsOccurrence(buckets, FinalAllocations(buckets, d, count), d, t, i, k)
    {
      TokensAreOccurrences(buckets, FinalAllocations(buckets, d, count), d, |buckets|, t);
      assert t in tokens <==> t in multiset(all);
    }
  }

  // ---------- when the population has the requested size ----------

  ghost predicate NoNegativeWeight(buckets: seq<WeightedBucket>) {
    forall i :: 0 <= i < |buckets| ==> 0 <= buckets[i].weight
  }

  lemma {:induction false} TokensAreSum(buckets: seq<WeightedBucket>, a: Allocations, d: AxisDigests, n: nat)
    requires n <= |buckets| && forall i :: 0 <= i < |buckets| ==> buckets[i].bucketId in a
    requires forall i :: 0 <= i < n ==> 0 <= a[buckets[i].bucketId]
    ensures |AllTokens(buckets, a, d, n)| == SumOverBuckets(a, buckets, n)
  {
    if n != 0 {
      TokensAreSum(buckets, a, d, n - 1);
    }
  }

  /** The bumps that the buckets see, repeated ids counted each time. */
  function SumOfBumps(buckets: seq<WeightedBucket>, order: seq<WeightedBucket>, k: nat, n: nat): (r: nat)
    requires n <= |buckets| && k <= |order|
    ensures r <= n * k
  {
    if n == 0 then 0
    else
      assert n * k == (n - 1) * k + k;
      SumOfBumps(buckets, order, k, n - 1) + Bumps(order, k, buckets[n - 1].bucketId)
  }

  lemma {:induction false} SumAfterAllBumps(
      a: Allocations, buckets: seq<WeightedBucket>, order: seq<WeightedBucket>, k: nat, n: nat)
    requires n <= |buckets| && k <= |order|
    requires forall i :: 0 <= i < |buckets| ==> buckets[i].bucketId in a
    requires forall i :: 0 <= i < |order| ==> order[i].bucketId in a
    ensures SumOverBuckets(Bumped(a, order, k), buckets, n)
      == SumOverBuckets(a, buckets, n) + SumOfBumps(buckets, order, k, n)
  {
    if n != 0 {
      SumAfterAllBumps(a, buckets, order, k, n - 1);
      BumpedByCount(a, order, k, buckets[n - 1].bucketId);
    }
  }

  // ----- harmless repeats -----

  lemma {:induction false} SumWithFirst(b: WeightedBucket, rest: seq<WeightedBucket>, count: int, n: nat)
    requires n <= |rest|
    ensures SumOfRemainders([b] + rest, count, n + 1) == Remainder(b, count) + SumOfRemainders(rest, count, n)
  {
    var all := [b] + rest;
    if n == 0 {
      assert SumOfRemainders(all, count, 0) == 0;
    } else {
      SumWithFirst(b, rest, count, n - 1);
      assert all[n] == rest[n - 1];
    }
  }

  lemma {:induction false} InsertKeepsSum(b: WeightedBucket, sorted: seq<WeightedBucket>, d: AxisDigests, count: int)
    ensures
      var r := InsertBucket(b, sorted, d, count);
      |r| == |sorted| + 1
      && SumOfRemainders(r, count, |r|) == Remainder(b, count) + SumOfRemainders(sorted, count, |sorted|)
  {
    if sorted == [] || !Precedes(sorted[0], b, d, count) {
      SumWithFirst(b, sorted, count, |sorted|);
    } else {
      var tail := InsertBucket(b, sorted[1..], d, count);
      InsertKeepsSum(b, sorted[1..], d, count);
      SumWithFirst(sorted[0], tail, count, |tail|);
      SumWithFirst(sorted[0], sorted[1..], count, |sorted| - 1);
      assert sorted == [sorted[0]] + sorted[1..];
    }
  }

  /** Sorting keeps the total of the remainders. */
  lemma {:induction false} OrderKeepsSum(buckets: seq<WeightedBucket>, d: AxisDigests, count: int)
    ensures SumOfRemainders(RemainderOrder(buckets, d, count), count, |buckets|)
      == SumOfRemainders(buckets, count, |buckets|)
  {
    if buckets != [] {
      OrderKeepsSum(buckets[1..], d, count);
      InsertKeepsSum(buckets[0], RemainderOrder(buckets[1..], d, count), d, count);
      SumWithFirst(buckets[0], buckets[1..], count, |buckets| - 1);
      assert buckets == [buckets[0]] + buckets[1..];
    }
  }

  /** In a falling order, nothing remains from the first zero on. */
  lemma {:induction false} SumUpToZero(order: seq<WeightedBucket>, count: int, k: nat, n: nat)
    requires Falling(order, count) && k < |order| && n <= |order| && Remainder(order[k], count) == 0
    ensures SumOfRemainders(order, count, n) <= 99 * k
  {
    if n != 0 {
      SumUpToZero(order, count, k, n - 1);
      if n <= k {
        SumIsSmall(order, count, n);
      } else {
        assert Remainder(order[n - 1], count) <= Remainder(order[k], count);
      }
    }
  }

  lemma {:induction false} SumIsSmall(order: seq<WeightedBucket>, count: int, n: nat)
    requires n <= |order|
    ensures SumOfRemainders(order, count, n) <= 99 * n
  {
    if n != 0 {
      SumIsSmall(order, count, n - 1);
    }
  }

  /** With harmless repeats, only buckets with a remainder are bumped. */
  lemma BumpedHasRemainder(buckets: seq<WeightedBucket>, d: AxisDigests, count: int, k: nat)
    requires RepeatsWeighNothing(buckets) && TotalWeight(buckets, |buckets|) == 100
    requires k < |buckets| && k < Remaining(buckets, count)
    ensures 0 < Remainder(RemainderOrder(buckets, d, count)[k], count)
  {
    var order, n := RemainderOrder(buckets, d, count), |buckets|;
    RemainderOrderFalls(buckets, d, count);
    OrderKeepsSum(buckets, d, count);
    FloorsAndRemainders(buckets, count, n);
    if Remainder(order[k], count) == 0 {
      SumUpToZero(order, count, k, n);
    }
  }

  lemma HarmlessRemaining(buckets: seq<WeightedBucket>, count: int)
    requires RepeatsWeighNothing(buckets) && TotalWeight(buckets, |buckets|) == 100
    ensures 0 <= Remaining(buckets, count) < |buckets|
    ensures SumOverBuckets(Floors(buckets, count, |buckets|), buckets, |buckets|) == count - Remaining(buckets, count)
  {
    FloorsAndRemainders(buckets, count, |buckets|);
  }

  /** Raising the value of an id that one bucket alone has. */
  lemma {:induction false} SumAfterLoneBump(a: Allocations, buckets: seq<WeightedBucket>, n: nat, k: nat)
    requires n <= |buckets| && k < |buckets|
    requires forall i :: 0 <= i < |buckets| ==> buckets[i].bucketId in a
    requires forall i :: 0 <= i < |buckets| && i != k ==> buckets[i].bucketId != buckets[k].bucketId
    ensures
      var id := buckets[k].bucketId;
      SumOverBuckets(a[id := a[id] + 1], buckets, n) == SumOverBuckets(a, buckets, n) + if k < n then 1 else 0
  {
    if n != 0 {
      SumAfterLoneBump(a, buckets, n - 1, k);
    }
  }

  lemma HasRemainderAlone(buckets: seq<WeightedBucket>, count: int, k: nat)
    requires RepeatsWeighNothing(buckets) && k < |buckets| && 0 < Remainder(buckets[k], count)
    ensures forall i :: 0 <= i < |buckets| && i != k ==> buckets[i].bucketId != buckets[k].bucketId
  {
    assert buckets[k].weight != 0;
  }

  lemma OrderMember(buckets: seq<WeightedBucket>, order: seq<WeightedBucket>, j: nat) returns (k: nat)
    requires multiset(order) == multiset(buckets) && j < |order|
    ensures k < |buckets| && buckets[k] == order[j]
  {
    assert order[j] in multiset(buckets);
    k :| 0 <= k < |buckets| && buckets[k] == order[j];
  }

  /** Bumping a bucket with a remainder adds one to the sum. */
  lemma HarmlessBump(buckets: seq<WeightedBucket>, count: int, a: Allocations, bucket: WeightedBucket, k: nat)
    requires RepeatsWeighNothing(buckets) && 0 < Remainder(bucket, count)
    requires k < |buckets| && buckets[k] == bucket
    requires forall i :: 0 <= i < |buckets| ==> buckets[i].bucketId in a
    ensures
      var id := bucket.bucketId;
      SumOverBuckets(a[id := a[id] + 1], buckets, |buckets|) == SumOverBuckets(a, buckets, |buckets|) + 1
  {
    HasRemainderAlone(buckets, count, k);
    SumAfterLoneBump(a, buckets, |buckets|, k);
  }

  lemma {:induction false} HarmlessBumps(
      buckets: seq<WeightedBucket>, order: seq<WeightedBucket>, count: int, a: Allocations, n: nat)
    requires RepeatsWeighNothing(buckets) && multiset(order) == multiset(buckets) && n <= |order|
    requires forall i :: 0 <= i < n ==> 0 < Remainder(order[i], count)
    requires forall i :: 0 <= i < |buckets| ==> buckets[i].bucketId in a
    requires forall i :: 0 <= i < |order| ==> order[i].bucketId in a
    ensures SumOverBuckets(Bumped(a, order, n), buckets, |buckets|) == SumOverBuckets(a, buckets, |buckets|) + n
  {
    if n != 0 {
      HarmlessBumps(buckets, order, count, a, n - 1);
      var k := OrderMember(buckets, order, n - 1);
      HarmlessBump(buckets, count, Bumped(a, order, n - 1), order[n - 1], k);
    }
  }

  lemma {:induction false} FloorsAreNatural(buckets: seq<WeightedBucket>, count: int, n: nat, i: nat)
    requires 0 <= count && NoNegativeWeight(buckets) && i < n <= |buckets|
    ensures 0 <= Floors(buckets, count, n)[buckets[i].bucketId]
  {
    FloorIsNear(buckets[n - 1], count);
    if buckets[n - 1].bucketId != buckets[i].bucketId {
      FloorsAreNatural(buckets, count, n - 1, i);
    }
  }

  /** The length of the sequence, ids distinct or not. */
  lemma SizeIsSum(buckets: seq<WeightedBucket>, d: AxisDigests, count: int)
    requires 0 <= count && NoNegativeWeight(buckets)
    ensures |Sequence(buckets, d, count)| == SumOverBuckets(FinalAllocations(buckets, d, count), buckets, |buckets|)
  {
    var a := FinalAllocations(buckets, d, count);
    OrderIsKnown(buckets, d, count);
    forall i | 0 <= i < |buckets|
      ensures 0 <= a[buckets[i].bucketId]
    {
      FloorsAreNatural(buckets, count, |buckets|, i);
      BumpedByCount(Floors(buckets, count, |buckets|), RemainderOrder(buckets, d, count),
                    SliceLength(Remaining(buckets, count), |buckets|), buckets[i].bucketId);
    }
    TokensAreSum(buckets, a, d, |buckets|);
    SortKeepsLength(AllTokens(buckets, a, d, |buckets|));
  }

  /** Harmless repeats do not change the size. */
  lemma HarmlessHasCount(buckets: seq<WeightedBucket>, d: AxisDigests, count: int)
    requires 1 <= count && NoNegativeWeight(buckets) && TotalWeight(buckets, |buckets|) == 100
    requires RepeatsWeighNothing(buckets)
    ensures |Sequence(buckets, d, count)| == count
  {
    OrderIsKnown(buckets, d, count);
    HarmlessRemaining(buckets, count);
    var order, n := RemainderOrder(buckets, d, count), Remaining(buckets, count);
    forall i | 0 <= i < n
      ensures 0 < Remainder(order[i], count)
    {
      BumpedHasRemainder(buckets, d, count, i);
    }
    HarmlessBumps(buckets, order, count, Floors(buckets, count, |buckets|), n);
    SizeIsSum(buckets, d, count);
  }

  /** With distinct ids and no negative weight, the population has the requested size. */
  lemma SequenceHasCount(buckets: seq<WeightedBucket>, d: AxisDigests, count: int)
    requires 1 <= count && DistinctIds(buckets) && NoNegativeWeight(buckets) && TotalWeight(buckets, |buckets|) == 100
    ensures |Sequence(buckets, d, count)| == count
  {
    HarmlessHasCount(buckets, d, count);
  }

  // ----- other repeats -----

  /** The weight that the dictionary sees at an id: that of the last bucket with it. */
  function LastWeights(buckets: seq<WeightedBucket>, n: nat): (m: Allocations)
    requires n <= |buckets|
    ensures forall i :: 0 <= i < n ==> buckets[i].bucketId in m
  {
    if n == 0 then map[]
    else LastWeights(buckets, n - 1)[buckets[n - 1].bucketId := buckets[n - 1].weight]
  }

  lemma {:induction false} LastWeightIs(buckets: seq<WeightedBucket>, n: nat, i: nat)
    requires i < n <= |buckets|
    ensures
      || LastWeights(buckets, n)[buckets[i].bucketId] == buckets[i].weight
      || exists j :: i < j < n && buckets[j].bucketId == buckets[i].bucketId
  {
    if i < n - 1 {
      LastWeightIs(buckets, n - 1, i);
    }
  }

  lemma {:induction false} LastWeightIsNatural(buckets: seq<WeightedBucket>, n: nat, id: string)
    requires NoNegativeWeight(buckets) && n <= |buckets| && id in LastWeights(buckets, n)
    ensures 0 <= LastWeights(buckets, n)[id]
  {
    if buckets[n - 1].bucketId != id {
      LastWeightIsNatural(buckets, n - 1, id);
    }
  }

  lemma EvenFloor(b: WeightedBucket, k: nat)
    ensures Floor(b, 100 * k) == k * b.weight && Remainder(b, 100 * k) == 0
  {
    var p := k * b.weight;
    assert 100 * k * b.weight == 100 * p;
  }

  lemma {:induction false} EvenFloors(buckets: seq<WeightedBucket>, k: nat, n: nat, i: nat)
    requires i < n <= |buckets|
    ensures Floors(buckets, 100 * k, n)[buckets[i].bucketId] == k * LastWeights(buckets, n)[buckets[i].bucketId]
  {
    EvenFloor(buckets[n - 1], k);
    if buckets[n - 1].bucketId != buckets[i].bucketId {
      EvenFloors(buckets, k, n - 1, i);
    }
  }

  /** For a multiple of a hundred, both sums of the floors are that multiple of the sums of the last weights. */
  lemma {:induction false} EvenSums(buckets: seq<WeightedBucket>, k: nat, n: nat)
    requires n <= |buckets|
    ensures
      var floors, last := Floors(buckets, 100 * k, |buckets|), LastWeights(buckets, |buckets|);
      && SumOfValues(floors, buckets, n) == k * SumOfValues(last, buckets, n)
      && SumOverBuckets(floors, buckets, n) == k * SumOverBuckets(last, buckets, n)
  {
    if n != 0 {
      var last, id := LastWeights(buckets, |buckets|), buckets[n - 1].bucketId;
      EvenSums(buckets, k, n - 1);
      EvenFloors(buckets, k, |buckets|, n - 1);
      assert k * (SumOverBuckets(last, buckets, n - 1) + last[id])
        == k * SumOverBuckets(last, buckets, n - 1) + k * last[id];
      assert k * (SumOfValues(last, buckets, n - 1) + last[id]) == k * SumOfValues(last, buckets, n - 1) + k * last[id];
    }
  }

  ghost predicate HasId(buckets: seq<WeightedBucket>, n: nat, id: string)
    requires n <= |buckets|
  {
    exists i :: 0 <= i < n && buckets[i].bucketId == id
  }

  /** Setting the value of an id changes the sum of the values once, if the id occurs. */
  lemma {:induction false} SumAfterSet(m: Allocations, buckets: seq<WeightedBucket>, n: nat, id: string, v: int)
    requires n <= |buckets| && forall i :: 0 <= i < n ==> buckets[i].bucketId in m
    requires HasId(buckets, n, id) ==> id in m
    ensures SumOfValues(m[id := v], buckets, n)
         == SumOfValues(m, buckets, n) + if HasId(buckets, n, id) then v - m[id] else 0
  {
    if n != 0 {
      assert HasId(buckets, n - 1, id) ==> HasId(buckets, n, id);
      SumAfterSet(m, buckets, n - 1, id, v);
      if buckets[n - 1].bucketId == id {
        assert SeenBefore(buckets, n - 1) <==> HasId(buckets, n - 1, id);
      } else if HasId(buckets, n, id) {
        assert HasId(buckets, n - 1, id);
      }
    }
  }

  /** No bucket but the last of its id has weight, among the first `n`. */
  ghost predicate OnlyLastWeighs(buckets: seq<WeightedBucket>, n: nat)
    requires n <= |buckets|
  {
    forall i, j :: 0 <= i < j < n && buckets[i].bucketId == buckets[j].bucketId ==> buckets[i].weight == 0
  }

  /** The last weights total at most all weights, and as much only if no other bucket of an id has weight. */
  lemma {:induction false} LastWeightsTotal(buckets: seq<WeightedBucket>, n: nat)
    requires NoNegativeWeight(buckets) && n <= |buckets|
    ensures SumOfValues(LastWeights(buckets, n), buckets, n) <= TotalWeight(buckets, n)
    ensures SumOfValues(LastWeights(buckets, n), buckets, n) == TotalWeight(buckets, n) ==> OnlyLastWeighs(buckets, n)
  {
    if n != 0 {
      var k, id, before := n - 1, buckets[n - 1].bucketId, LastWeights(buckets, n - 1);
      LastWeightsTotal(buckets, k);
      SumAfterSet(before, buckets, k, id, buckets[k].weight);
      assert SeenBefore(buckets, k) <==> HasId(buckets, k, id);
      if HasId(buckets, k, id) {
        LastWeightIsNatural(buckets, k, id);
        if before[id] == 0 && OnlyLastWeighs(buckets, k) {
          OnlyLastExtends(buckets, k);
        }
      } else {
        NewIdKeepsLast(buckets, k);
      }
    }
  }

  lemma OnlyLastExtends(buckets: seq<WeightedBucket>, k: nat)
    requires k < |buckets| && OnlyLastWeighs(buckets, k) && HasId(buckets, k, buckets[k].bucketId)
    requires buckets[k].bucketId in LastWeights(buckets, k) && LastWeights(buckets, k)[buckets[k].bucketId] == 0
    ensures OnlyLastWeighs(buckets, k + 1)
  {
    forall i | 0 <= i < k && buckets[i].bucketId == buckets[k].bucketId
      ensures buckets[i].weight == 0
    {
      LastWeightIs(buckets, k, i);
    }
  }

  lemma NewIdKeepsLast(buckets: seq<WeightedBucket>, k: nat)
    requires k < |buckets| && !HasId(buckets, k, buckets[k].bucketId)
    ensures OnlyLastWeighs(buckets, k) ==> OnlyLastWeighs(buckets, k + 1)
  {
  }

  /**
    Counting repeated ids each time gives at least as much, and as much only if every repeated id has the value
    zero.
   */
  lemma {:induction false} RepeatsCount(m: Allocations, buckets: seq<WeightedBucket>, n: nat)
    requires n <= |buckets| && forall i :: 0 <= i < n ==> buckets[i].bucketId in m && 0 <= m[buckets[i].bucketId]
    ensures SumOfValues(m, buckets, n) <= SumOverBuckets(m, buckets, n)
    ensures SumOfValues(m, buckets, n) == SumOverBuckets(m, buckets, n) ==>
      forall j :: 0 <= j < n && SeenBefore(buckets, j) ==> m[buckets[j].bucketId] == 0
  {
    if n != 0 {
      RepeatsCount(m, buckets, n - 1);
    }
  }

  lemma {:induction false} InOrderMeansBumped(order: seq<WeightedBucket>, n: nat, j: nat)
    requires j < n <= |order|
    ensures 1 <= Bumps(order, n, order[j].bucketId)
  {
    if j < n - 1 {
      InOrderMeansBumped(order, n - 1, j);
    }
  }

  /** If every bucket is bumped, the buckets see at least one bump and at most as many as there are pairs. */
  lemma {:induction false} SomeBumpIsSeen(buckets: seq<WeightedBucket>, order: seq<WeightedBucket>, n: nat)
    requires 0 < n <= |buckets| && |order| == |buckets| && multiset(order) == multiset(buckets)
    ensures 1 <= SumOfBumps(buckets, order, |buckets|, n) <= n * |buckets|
  {
    if n == 1 {
      assert buckets[0] in multiset(order);
      var j :| 0 <= j < |order| && order[j] == buckets[0];
      InOrderMeansBumped(order, |order|, j);
      assert SumOfBumps(buckets, order, |buckets|, 0) == 0;
    } else {
      SomeBumpIsSeen(buckets, order, n - 1);
    }
  }

  /** A hundred times `k` is not met by `k * total` and a few bumps. */
  lemma FewBumpsMiss(k: nat, total: int, bumps: nat)
    requires 1 <= bumps < k
    ensures k * total + bumps != 100 * k
  {
    var gap := 100 - total;
    assert k * total == 100 * k - k * gap;
    if 1 <= gap {
      assert k <= k * gap;
    } else {
      assert k * gap <= 0;
    }
  }

  /** A right size for a large multiple of a hundred leaves nothing to bump. */
  lemma NothingIsBumped(buckets: seq<WeightedBucket>, d: AxisDigests, k: nat)
    requires NoNegativeWeight(buckets) && TotalWeight(buckets, |buckets|) == 100
    requires |buckets| * |buckets| < k && |Sequence(buckets, d, 100 * k)| == 100 * k
    ensures
      var n, last := |buckets|, LastWeights(buckets, |buckets|);
      100 <= SumOfValues(last, buckets, n) && k * SumOverBuckets(last, buckets, n) == 100 * k
  {
    var n, last, order := |buckets|, LastWeights(buckets, |buckets|), RemainderOrder(buckets, d, 100 * k);
    LargeSize(buckets, d, k);
    if SumOfValues(last, buckets, n) < 100 {
      SomeBumpIsSeen(buckets, order, n);
      FewBumpsMiss(k, SumOverBuckets(last, buckets, n), SumOfBumps(buckets, order, n, n));
    }
  }

  /** The size for a large multiple of a hundred settles what the weights of repeated ids are. */
  lemma LargeSizeTells(buckets: seq<WeightedBucket>, d: AxisDigests, k: nat)
    requires NoNegativeWeight(buckets) && TotalWeight(buckets, |buckets|) == 100
    requires |buckets| * |buckets| < k && |Sequence(buckets, d, 100 * k)| == 100 * k
    ensures RepeatsWeighNothing(buckets)
  {
    NothingIsBumped(buckets, d, k);
    LastWeightsTotal(buckets, |buckets|);
    SameFactor(k, SumOverBuckets(LastWeights(buckets, |buckets|), buckets, |buckets|));
    WeightlessRepeats(buckets);
  }

  lemma FactorGap(k: nat, gap: int)
    requires 0 < k && gap != 0
    ensures k * gap != 0
  {
  }

  lemma SameFactor(k: nat, total: int)
    requires 0 < k && k * total == 100 * k
    ensures total == 100
  {
    var gap := total - 100;
    assert k * gap == k * total - 100 * k;
    if gap != 0 {
      FactorGap(k, gap);
    }
  }

  /** The size for a large multiple of a hundred: all buckets are bumped, or none. */
  lemma LargeSize(buckets: seq<WeightedBucket>, d: AxisDigests, k: nat)
    requires NoNegativeWeight(buckets) && TotalWeight(buckets, |buckets|) == 100 && |buckets| * |buckets| < k
    ensures
      var n, last, order := |buckets|, LastWeights(buckets, |buckets|), RemainderOrder(buckets, d, 100 * k);
      |Sequence(buckets, d, 100 * k)| == k * SumOverBuckets(last, buckets, n)
        + if SumOfValues(last, buckets, n) < 100 then SumOfBumps(buckets, order, n, n) else 0
  {
    var n, last, order := |buckets|, LastWeights(buckets, |buckets|), RemainderOrder(buckets, d, 100 * k);
    OrderIsKnown(buckets, d, 100 * k);
    SizeIsSum(buckets, d, 100 * k);
    EvenSums(buckets, k, n);
    LastWeightsTotal(buckets, n);
    var bumps := SliceLength(Remaining(buckets, 100 * k), n);
    SumAfterAllBumps(Floors(buckets, 100 * k, n), buckets, order, bumps, n);
    LargeRemaining(k, n, SumOfValues(last, buckets, n));
    if bumps == 0 {
      NoBumps(buckets, order, n);
    }
  }

  lemma LargeRemaining(k: nat, n: nat, total: int)
    requires n * n < k && total <= 100
    ensures SliceLength(100 * k - k * total, n) == if total < 100 then n else 0
  {
    var gap := 100 - total;
    assert 100 * k - k * total == k * gap;
    assert n <= n * n;
    if 0 < gap {
      assert k <= k * gap;
    } else {
      assert k * gap == 0;
    }
  }

  lemma {:induction false} NoBumps(buckets: seq<WeightedBucket>, order: seq<WeightedBucket>, n: nat)
    requires n <= |buckets|
    ensures SumOfBumps(buckets, order, 0, n) == 0
  {
    if n != 0 {
      NoBumps(buckets, order, n - 1);
    }
  }

  lemma WeightlessRepeats(buckets: seq<WeightedBucket>)
    requires NoNegativeWeight(buckets) && OnlyLastWeighs(buckets, |buckets|)
    requires
      var last := LastWeights(buckets, |buckets|);
      SumOfValues(last, buckets, |buckets|) == SumOverBuckets(last, buckets, |buckets|)
    ensures RepeatsWeighNothing(buckets)
  {
    var n, last := |buckets|, LastWeights(buckets, |buckets|);
    forall i | 0 <= i < n
      ensures 0 <= last[buckets[i].bucketId]
    {
      LastWeightIsNatural(buckets, n, buckets[i].bucketId);
    }
    RepeatsCount(last, buckets, n);
    forall i, j | 0 <= i < j < n && buckets[i].bucketId == buckets[j].bucketId
      ensures buckets[i].weight == 0 && buckets[j].weight == 0
    {
      assert SeenBefore(buckets, j);
      LastWeightIs(buckets, n, j);
    }
  }

  /**
    With weights that are not negative and total a hundred, the sequence has the requested size for every count iff
    buckets that share an id have no weight.
   */
  lemma SizeIsExact(buckets: seq<WeightedBucket>, d: AxisDigests)
    requires NoNegativeWeight(buckets) && TotalWeight(buckets, |buckets|) == 100
    ensures (forall count :: 1 <= count ==> |Sequence(buckets, d, count)| == count) <==> RepeatsWeighNothing(buckets)
  {
    if RepeatsWeighNothing(buckets) {
      forall count | 1 <= count
        ensures |Sequence(buckets, d, count)| == count
      {
        HarmlessHasCount(buckets, d, count);
      }
    } else {
      var k := |buckets| * |buckets| + 1;
      if |Sequence(buckets, d, 100 * k)| == 100 * k {
        LargeSizeTells(buckets, d, k);
      }
    }
  }

  lemma TwinFloors(b: WeightedBucket, count: int)
    ensures
      var floors := Floors([b, b], count, 2);
      floors == map[b.bucketId := Floor(b, count)] && SumOfValues(floors, [b, b], 2) == Floor(b, count)
  {
    var buckets := [b, b];
    assert Floors(buckets, count, 1) == map[b.bucketId := Floor(b, count)];
    assert !SeenBefore(buckets, 0);
    assert buckets[0].bucketId == buckets[1].bucketId;
    assert SeenBefore(buckets, 1);
    assert SumOfValues(Floors(buckets, count, 2), buckets, 1) == Floor(b, count);
  }

  lemma TwinTokens(b: WeightedBucket, a: Allocations, d: AxisDigests)
    requires b.bucketId in a && 0 <= a[b.bucketId]
    ensures |AllTokens([b, b], a, d, 2)| == 2 * a[b.bucketId]
  {
    assert |AllTokens([b, b], a, d, 1)| == a[b.bucketId];
  }

  /** Two buckets of one id and weight 50 each turn a population of ten into fourteen. */
  lemma RepeatedIdOverfills(d: AxisDigests)
    ensures
      var b := WeightedBucket("a", 50);
      TotalWeight([b, b], 2) == 100 && |Sequence([b, b], d, 10)| == 14
  {
    var b := WeightedBucket("a", 50);
    var buckets := [b, b];
    assert TotalWeight(buckets, 1) == 50;
    var order := RemainderOrder(buckets, d, 10);
    OrderIsKnown(buckets, d, 10);
    assert order[0] == b && order[1] == b;
    TwinFloors(b, 10);
    var floors := Floors(buckets, 10, 2);
    assert Bumped(floors, order, 1)["a"] == 6;
    var a := FinalAllocations(buckets, d, 10);
    assert a["a"] == 7;
    TwinTokens(b, a, d);
    SortKeepsLength(AllTokens(buckets, a, d, 2));
  }
}
