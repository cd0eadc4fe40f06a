/** The multi-processor search of the compute-bound demo: one search task per
    batch, submitted together with `invokeAny`. The thread pool is not modelled;
    what remains is its observable choice: tasks complete in an order chosen by
    the scheduler and the first one that completes normally supplies the result. */
module Coordinator {
  import opened Options
  import opened Ranges
  import opened FactorSearch
  import opened Partition
  import opened Arithmetic

  /** What each batch's task ends with when it runs to completion. A task is only
      interrupted after a winner exists, so its interrupted outcome never matters;
      by `UninterruptedIsLinear` an uninterrupted task is the flat scan of its batch. */
  function TaskOutcomes(product: int, batches: seq<Range>): (os: seq<Outcome>)
    ensures |os| == |batches|
    ensures forall i :: 0 <= i < |batches| ==> os[i] != Cancelled
    ensures forall i :: 0 <= i < |batches| && os[i].Found? ==>
      IsLeastDivisor(product, batches[i].lo, batches[i].hi, os[i].factor)
    ensures forall i :: 0 <= i < |batches| ==>
      (os[i] == NotFound <==> NoDivisorIn(product, batches[i].lo, batches[i].hi))
  {
    seq(|batches|, i requires 0 <= i < |batches| => LinearScan(product, batches[i].lo, batches[i].hi))
  }

  /** `order` lists every task exactly once, in the order in which the tasks complete. */
  ghost predicate IsCompletionOrder(order: seq<nat>, n: nat) {
    && |order| == n
    && (forall j :: 0 <= j < |order| ==> order[j] < n)
    && (forall i :: 0 <= i < n ==> i in order)
  }

  /** `invokeAny`: the result of the first task, in completion order, that returns a
      factor; `None` when every task ends with an exception. */
  function FirstFound(outcomes: seq<Outcome>, order: seq<nat>): (r: Option<int>)
    requires forall j :: 0 <= j < |order| ==> order[j] < |outcomes|
    ensures r.Some? ==> exists j :: 0 <= j < |order| && outcomes[order[j]] == Found(r.value)
    ensures r.None? <==> forall j :: 0 <= j < |order| ==> !outcomes[order[j]].Found?
  {
    if order == [] then None
    else if outcomes[order[0]].Found? then Some(outcomes[order[0]].factor)
    else
      var r := FirstFound(outcomes, order[1..]);
      assert forall j :: 1 <= j < |order| ==> order[j] == order[1..][j - 1];
      r
  }

  /** The factor reported by the multi-processor search over `batches`: the least divisor of one of
      the batches that completed; nothing exactly when none of them holds a divisor. */
  function ParallelSearch(product: int, batches: seq<Range>, order: seq<nat>): (r: Option<int>)
    requires forall j :: 0 <= j < |order| ==> order[j] < |batches|
    ensures r.Some? ==>
      exists j :: 0 <= j < |order| && IsLeastDivisor(product, batches[order[j]].lo, batches[order[j]].hi, r.value)
    ensures r.None? <==> forall j :: 0 <= j < |order| ==>
      NoDivisorIn(product, batches[order[j]].lo, batches[order[j]].hi)
  {
    FirstFound(TaskOutcomes(product, batches), order)
  }

  /** Whatever the completion order, a reported factor is the least divisor of some batch
      and lies in the covered range; nothing is reported exactly when the covered range
      holds no divisor. */
  lemma ParallelSearchSound(product: int, batches: seq<Range>, order: seq<nat>)
    requires Contiguous(batches) && |batches| > 0
    requires IsCompletionOrder(order, |batches|)
    ensures var r := ParallelSearch(product, batches, order);
      && (r.Some? ==> exists i :: 0 <= i < |batches| && IsLeastDivisor(product, batches[i].lo, batches[i].hi, r.value))
      && (r.Some? ==> IsDivisor(product, r.value) && batches[0].lo <= r.value < batches[|batches| - 1].hi)
      && (r.None? <==> NoDivisorIn(product, batches[0].lo, batches[|batches| - 1].hi))
  {
    var os := TaskOutcomes(product, batches);
    var r := ParallelSearch(product, batches, order);
    var lo, hi := batches[0].lo, batches[|batches| - 1].hi;
    if r.Some? {
      var j :| 0 <= j < |order| && IsLeastDivisor(product, batches[order[j]].lo, batches[order[j]].hi, r.value);
      var i := order[j];
      ContiguousUnion(batches, r.value);
      assert batches[i].Contains(r.value);
      assert !NoDivisorIn(product, lo, hi) by {
        assert IsDivisor(product, r.value);
      }
    } else {
      forall d | lo <= d < hi
        ensures !IsDivisor(product, d)
      {
        ContiguousUnion(batches, d);
        var i :| 0 <= i < |batches| && batches[i].Contains(d);
        assert i in order;
        var j :| 0 <= j < |order| && order[j] == i;
        assert NoDivisorIn(product, batches[i].lo, batches[i].hi);
      }
    }
  }

  /** The demo's multi-processor search, with the batches built as the source builds them: a
      reported factor divides the product and lies below the end of the last batch. */
  function ComputeBoundAsWritten(product: int, processors: int, order: seq<nat>): (r: Option<int>)
    requires 0 < processors
    requires forall j :: 0 <= j < |order| ==> order[j] < processors
    ensures r.Some? ==> IsDivisor(product, r.value) && MIN <= r.value < CoveredEnd(MIN, MAX, processors)
  {
    var r := ParallelSearch(product, Batches(MIN, MAX, processors), order);
    AsWrittenSearchInSpan(product, MIN, MAX, processors, order, r);
    r
  }

  /** A factor reported by a search over some of `batches` lies in one of them. */
  lemma ReportedInUnion(product: int, batches: seq<Range>, order: seq<nat>)
    requires forall j :: 0 <= j < |order| ==> order[j] < |batches|
    ensures var r := ParallelSearch(product, batches, order);
      r.Some? ==> IsDivisor(product, r.value) && InUnion(batches, r.value)
  {
    var r := ParallelSearch(product, batches, order);
    if r.Some? {
      var j :| 0 <= j < |order| && IsLeastDivisor(product, batches[order[j]].lo, batches[order[j]].hi, r.value);
      assert batches[order[j]].Contains(r.value);
    }
  }

  lemma AsWrittenSearchInSpan(product: int, min: int, max: int, p: int, order: seq<nat>, r: Option<int>)
    requires 0 < p && min <= max
    requires forall j :: 0 <= j < |order| ==> order[j] < p
    requires r == ParallelSearch(product, Batches(min, max, p), order)
    ensures r.Some? ==> min <= r.value < CoveredEnd(min, max, p)
  {
    ReportedInUnion(product, Batches(min, max, p), order);
    if r.Some? {
      BatchesCover(min, max, p, r.value);
    }
  }

  lemma BalancedSearchInSpan(product: int, min: int, max: int, p: int, order: seq<nat>)
    requires 0 < p && min <= max
    requires forall j :: 0 <= j < |order| ==> order[j] < p
    ensures var r := ParallelSearch(product, BalancedBatches(min, max, p), order);
      r.Some? ==> min <= r.value < max
  {
    var r := ParallelSearch(product, BalancedBatches(min, max, p), order);
    ReportedInUnion(product, BalancedBatches(min, max, p), order);
    if r.Some? {
      BalancedBatchesCover(min, max, p, r.value);
    }
  }

  /** As written, a reported factor divides the product and lies in `[MIN, MAX)`, but
      nothing is reported exactly when `[MIN, MAX - (MAX - MIN) % processors)` holds no divisor:
      the top remainder of the range is never searched. */
  lemma ComputeBoundAsWrittenSound(product: int, processors: int, order: seq<nat>)
    requires 0 < processors
    requires IsCompletionOrder(order, processors)
    ensures var r := ComputeBoundAsWritten(product, processors, order);
      && (r.Some? ==> IsDivisor(product, r.value) && MIN <= r.value < MAX)
      && (r.None? <==> NoDivisorIn(product, MIN, CoveredEnd(MIN, MAX, processors)))
  {
    ParallelSearchSound(product, Batches(MIN, MAX, processors), order);
  }

  /** Every search the demo starts, over `[MIN, MAX)` or over one batch (as written or balanced),
      meets the requirements of `Search` with `BLOCK_SIZE`. */
  lemma DemoSearchesDefined(p: int, i: int)
    requires 0 <= i < p
    ensures SearchDefined(MIN, MAX, BLOCK_SIZE)
    ensures SearchDefined(Batches(MIN, MAX, p)[i].lo, Batches(MIN, MAX, p)[i].hi, BLOCK_SIZE)
    ensures SearchDefined(BalancedBatches(MIN, MAX, p)[i].lo, BalancedBatches(MIN, MAX, p)[i].hi, BLOCK_SIZE)
  {
    BatchesWithin(MIN, MAX, p, i);
    var bs := BalancedBatches(MIN, MAX, p);
    if 0 < i {
      ContiguousOrdered(bs, 0, i);
    }
    if i < p - 1 {
      ContiguousOrdered(bs, i, p - 1);
    }
  }

  /** The value `2^31 - 1` is its own only divisor in `[MIN, MAX)`. */
  lemma TopValueOnlySelfDivisor(d: int)
    requires MIN <= d < MAX - 1
    ensures !IsDivisor(MAX - 1, d)
  {
    var n := MAX - 1;
    var q := n / d;
    assert q * d == n - n % d;
    MulCancelLess(q, 2, d);
    MulCancelLess(0, q, d);
    assert q == 1;
  }

  /** With three processors the as-written batches stop at `2^31 - 1`: for every product whose only
      divisor in `[MIN, MAX)` is `2^31 - 1` (both generated primes equal to `2^31 - 1`, say) the
      single-processor search finds it and the three-processor search reports nothing, whatever
      the completion order. */
  lemma AsWrittenMissesTopValue(product: int, order: seq<nat>)
    requires IsDivisor(product, MAX - 1) && NoDivisorIn(product, MIN, MAX - 1)
    requires IsCompletionOrder(order, 3)
    ensures LinearScan(product, MIN, MAX) == Found(MAX - 1)
    ensures ComputeBoundAsWritten(product, 3, order) == None
  {
    var lin := LinearScan(product, MIN, MAX);
    assert lin.Found? && lin.factor == MAX - 1 by {
      assert !NoDivisorIn(product, MIN, MAX);
    }
    assert CoveredEnd(MIN, MAX, 3) == MAX - 1;
    ComputeBoundAsWrittenSound(product, 3, order);
  }

  /** The product `2^31 - 1` meets the assumption of `AsWrittenMissesTopValue`. */
  lemma TopValueMissed(order: seq<nat>)
    requires IsCompletionOrder(order, 3)
    ensures LinearScan(MAX - 1, MIN, MAX) == Found(MAX - 1)
    ensures ComputeBoundAsWritten(MAX - 1, 3, order) == None
  {
    var n := MAX - 1;
    forall d | MIN <= d < n
      ensures !IsDivisor(n, d)
    {
      TopValueOnlySelfDivisor(d);
    }
    AsWrittenMissesTopValue(n, order);
  }

  /** The multi-processor search with batches that absorb the remainder: a reported factor divides
      the product and lies in `[MIN, MAX)`. */
  function ComputeBound(product: int, processors: int, order: seq<nat>): (r: Option<int>)
    requires 0 < processors
    requires forall j :: 0 <= j < |order| ==> order[j] < processors
    ensures r.Some? ==> IsDivisor(product, r.value) && MIN <= r.value < MAX
  {
    BalancedSearchInSpan(product, MIN, MAX, processors, order);
    ParallelSearch(product, BalancedBatches(MIN, MAX, processors), order)
  }

  /** With balanced batches the multi-processor search agrees with the single-processor one on
      whether `[MIN, MAX)` holds a factor, for every processor count and completion order; any
      reported factor divides the product and lies in `[MIN, MAX)`. */
  lemma ComputeBoundSound(product: int, processors: int, order: seq<nat>)
    requires 0 < processors
    requires IsCompletionOrder(order, processors)
    ensures var r := ComputeBound(product, processors, order);
      && (r.Some? ==> IsDivisor(product, r.value) && MIN <= r.value < MAX)
      && (r.None? <==> LinearScan(product, MIN, MAX) == NotFound)
  {
    ParallelSearchSound(product, BalancedBatches(MIN, MAX, processors), order);
  }
}
