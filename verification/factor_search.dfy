/** The divisor scan of the compute-bound demo (`factorSearch`): it walks the
    half-open range `[from, limit)` in blocks of `blockSize` candidates, returns the
    first candidate that divides `product`, and polls for thread interruption
    after every completed block. */
module FactorSearch {
  import opened Ranges
  import opened Arithmetic

  /** Block length used by the Java source; the search below works for any positive block. */
  const BLOCK_SIZE: int := 1000000

  /** What one search task ends with: a returned factor, the `NoSuchElementException`
      of an exhausted range, or the `InterruptedException` of a cancelled task. */
  datatype Outcome = Found(factor: int) | NotFound | Cancelled

  /** The inputs on which the Java search is well defined: below 1 it can divide by zero at
      candidate 0 or return a negative divisor, and `blockStart += blockSize` must not wrap past
      `Long.MAX_VALUE`. */
  predicate SearchDefined(from: int, limit: int, blockSize: int) {
    1 <= from && 0 < blockSize && limit - 1 + blockSize <= LONG_MAX
  }

  function Min(a: int, b: int): int {
    if a <= b then a else b
  }

  predicate IsDivisor(product: int, d: int) {
    d != 0 && product % d == 0
  }

  ghost predicate NoDivisorIn(product: int, lo: int, hi: int) {
    forall d :: lo <= d < hi ==> !IsDivisor(product, d)
  }

  /** `f` is the smallest divisor of `product` in `[lo, hi)`. */
  ghost predicate IsLeastDivisor(product: int, lo: int, hi: int, f: int) {
    lo <= f < hi && IsDivisor(product, f) && NoDivisorIn(product, lo, f)
  }

  /** Flat reference: a one-candidate-at-a-time scan with no blocks and no interruption. */
  function LinearScan(product: int, from: int, limit: int): (r: Outcome)
    ensures r != Cancelled
    ensures r.Found? ==> IsLeastDivisor(product, from, limit, r.factor)
    ensures r == NotFound <==> NoDivisorIn(product, from, limit)
    decreases limit - from
  {
    if from >= limit then NotFound
    else if IsDivisor(product, from) then Found(from)
    else LinearScan(product, from + 1, limit)
  }

  /** Low end of block `k` of a search that starts at `from`: the outer loop's `blockStart`
      after `k` steps of `blockStart += blockSize`. */
  function BlockLo(from: int, blockSize: int, k: nat): int {
    if k == 0 then from else BlockLo(from, blockSize, k - 1) + blockSize
  }

  /** High end of block `k`: `Math.min(blockStart + blockSize, limit)`. */
  function BlockHi(from: int, limit: int, blockSize: int, k: nat): int {
    Min(BlockLo(from, blockSize, k + 1), limit)
  }

  /** Block `k` starts `k * blockSize` after `from`. */
  lemma {:induction false} BlockLoClosedForm(from: int, blockSize: int, k: nat)
    ensures BlockLo(from, blockSize, k) == from + k * blockSize
  {
    if k > 0 {
      BlockLoClosedForm(from, blockSize, k - 1);
      MulSucc(k - 1, blockSize);
    }
  }

  lemma {:induction false} BlockLoMonotone(from: int, blockSize: int, j: nat, k: nat)
    requires 0 <= blockSize
    requires j <= k
    ensures BlockLo(from, blockSize, j) <= BlockLo(from, blockSize, k)
    decreases k
  {
    if j < k {
      BlockLoMonotone(from, blockSize, j, k - 1);
    }
  }

  /** Block starts are strictly increasing, so a lower start means an earlier block. */
  lemma {:induction false} BlockLoCancel(from: int, blockSize: int, j: nat, k: nat)
    requires 0 <= blockSize
    requires BlockLo(from, blockSize, j) < BlockLo(from, blockSize, k)
    ensures j < k
    decreases j
  {
    BlockLoMonotone(from, blockSize, 0, j);
    if j > 0 && k > 0 {
      BlockLoCancel(from, blockSize, j - 1, k - 1);
    }
  }

  /** The blocks of `[start, limit)`, in the order the outer loop visits them. */
  function Blocks(start: int, limit: int, blockSize: int): (bs: seq<Range>)
    requires blockSize > 0
    ensures |bs| > 0 <==> start < limit
    decreases limit - start
  {
    if start >= limit then []
    else [Range(start, Min(start + blockSize, limit))] + Blocks(start + blockSize, limit, blockSize)
  }

  /** Block `k` of a range is block `k - 1` of the range that starts one block later. */
  lemma {:induction false} BlockShift(start: int, blockSize: int, k: nat)
    requires 0 < k
    ensures BlockLo(start, blockSize, k) == BlockLo(start + blockSize, blockSize, k - 1)
    decreases k
  {
    if k > 1 {
      BlockShift(start, blockSize, k - 1);
    }
  }

  /** The `k`-th element of `Blocks` is block `k` as the search loop computes it, and it exists
      exactly while its low end is below `limit`. */
  lemma {:induction false} BlocksIndexed(start: int, limit: int, blockSize: int, k: nat)
    requires blockSize > 0
    ensures k < |Blocks(start, limit, blockSize)| <==> BlockLo(start, blockSize, k) < limit
    ensures k < |Blocks(start, limit, blockSize)| ==>
      Blocks(start, limit, blockSize)[k] == Range(BlockLo(start, blockSize, k), BlockHi(start, limit, blockSize, k))
    decreases limit - start
  {
    if start >= limit {
      BlockLoMonotone(start, blockSize, 0, k);
    } else if k > 0 {
      var bs := Blocks(start, limit, blockSize);
      var rest := Blocks(start + blockSize, limit, blockSize);
      assert |bs| == 1 + |rest|;
      BlockShift(start, blockSize, k);
      BlockShift(start, blockSize, k + 1);
      BlocksIndexed(start + blockSize, limit, blockSize, k - 1);
      if k < |bs| {
        assert bs[k] == rest[k - 1];
      }
    }
  }

  /** Block `k` is polled for interruption only after all of it was scanned. */
  ghost predicate QuietBefore(interrupted: nat -> bool, from: int, blockSize: int, x: int) {
    forall k: nat :: BlockLo(from, blockSize, k + 1) <= x ==> !interrupted(k)
  }

  /** Interruption is first seen after block `k`, and that block and all before it hold no divisor. */
  ghost predicate CancelledAt(product: int, from: int, limit: int, blockSize: int, interrupted: nat -> bool, k: nat) {
    && BlockLo(from, blockSize, k) < limit
    && interrupted(k)
    && (forall j: nat :: j < k ==> !interrupted(j))
    && NoDivisorIn(product, from, BlockHi(from, limit, blockSize, k))
  }

  /** What a blocked search may end with, given the interruption oracle:
      a found factor is the least one and no block before its own was interrupted;
      not-found means no divisor and no interrupt after any block (the last included);
      cancelled means some block ended with a pending interrupt before any divisor was met. */
  ghost predicate SearchSpec(product: int, from: int, limit: int, blockSize: int, interrupted: nat -> bool, r: Outcome) {
    match r
    case Found(f) => IsLeastDivisor(product, from, limit, f) && QuietBefore(interrupted, from, blockSize, f)
    case NotFound =>
      && NoDivisorIn(product, from, limit)
      && forall k: nat :: BlockLo(from, blockSize, k) < limit ==> !interrupted(k)
    case Cancelled => exists k: nat :: CancelledAt(product, from, limit, blockSize, interrupted, k)
  }

  /** The blocked search. `interrupted(k)` says whether an interrupt is pending when the
      task polls after its `k`-th block (`Thread.sleep(0)`). */
  method Search(product: int, from: int, limit: int, blockSize: int, interrupted: nat -> bool) returns (r: Outcome)
    requires SearchDefined(from, limit, blockSize)
    ensures SearchSpec(product, from, limit, blockSize, interrupted, r)
  {
    var blockStart := from;
    var k: nat := 0;
    while blockStart < limit
      invariant blockStart == BlockLo(from, blockSize, k)
      invariant NoDivisorIn(product, from, Min(blockStart, limit))
      invariant forall j: nat :: j < k ==> !interrupted(j)
      decreases limit - blockStart
    {
      var blockEnd := Min(blockStart + blockSize, limit);
      var factor := blockStart;
      while factor < blockEnd
        invariant blockStart <= factor <= blockEnd
        invariant NoDivisorIn(product, from, factor)
      {
        if product % factor == 0 {
          forall j: nat | BlockLo(from, blockSize, j + 1) <= factor
            ensures !interrupted(j)
          {
            BlockLoCancel(from, blockSize, j + 1, k + 1);
          }
          return Found(factor);
        }
        factor := factor + 1;
      }
      if interrupted(k) {
        assert CancelledAt(product, from, limit, blockSize, interrupted, k);
        return Cancelled;
      }
      blockStart := blockStart + blockSize;
      k := k + 1;
    }
    forall j: nat | BlockLo(from, blockSize, j) < limit
      ensures !interrupted(j)
    {
      BlockLoCancel(from, blockSize, j, k);
    }
    return NotFound;
  }

  /** The outcome is a function of the arguments and the oracle: two runs with the same
      inputs (in particular two runs without interruption) end the same way. */
  lemma SearchDeterministic(product: int, from: int, limit: int, blockSize: int, interrupted: nat -> bool, r1: Outcome, r2: Outcome)
    requires 0 < blockSize
    requires SearchSpec(product, from, limit, blockSize, interrupted, r1)
    requires SearchSpec(product, from, limit, blockSize, interrupted, r2)
    ensures r1 == r2
  {
    if r1.Found? && r2.Found? {
      LeastDivisorUnique(product, from, limit, r1.factor, r2.factor);
    }
  }

  lemma LeastDivisorUnique(product: int, lo: int, hi: int, f: int, g: int)
    requires IsLeastDivisor(product, lo, hi, f)
    requires IsLeastDivisor(product, lo, hi, g)
    ensures f == g
  {
  }

  /** Without interruption the blocked search is the flat scan, whatever the block size. */
  lemma UninterruptedIsLinear(product: int, from: int, limit: int, blockSize: int, interrupted: nat -> bool, r: Outcome)
    requires 0 < blockSize
    requires forall k: nat :: !interrupted(k)
    requires SearchSpec(product, from, limit, blockSize, interrupted, r)
    ensures r == LinearScan(product, from, limit)
  {
    var lin := LinearScan(product, from, limit);
    if r.Found? && lin.Found? {
      LeastDivisorUnique(product, from, limit, r.factor, lin.factor);
    }
  }

  /** A range without a divisor never yields a factor: the search ends as not-found, or as
      cancelled if an interrupt is seen first; an empty range always ends as not-found. */
  lemma NoDivisorNoFactor(product: int, from: int, limit: int, blockSize: int, interrupted: nat -> bool, r: Outcome)
    requires 0 < blockSize
    requires NoDivisorIn(product, from, limit)
    requires SearchSpec(product, from, limit, blockSize, interrupted, r)
    ensures r == NotFound || r == Cancelled
    ensures limit <= from ==> r == NotFound
  {
    if r.Cancelled? {
      var k: nat :| CancelledAt(product, from, limit, blockSize, interrupted, k);
      BlockLoMonotone(from, blockSize, 0, k);
    }
  }

  /** Without interruption the outcome does not depend on the block size. */
  lemma BlockSizeIrrelevant(product: int, from: int, limit: int, b1: int, b2: int, interrupted: nat -> bool, r1: Outcome, r2: Outcome)
    requires 0 < b1 && 0 < b2
    requires forall k: nat :: !interrupted(k)
    requires SearchSpec(product, from, limit, b1, interrupted, r1)
    requires SearchSpec(product, from, limit, b2, interrupted, r2)
    ensures r1 == r2
  {
    UninterruptedIsLinear(product, from, limit, b1, interrupted, r1);
    UninterruptedIsLinear(product, from, limit, b2, interrupted, r2);
  }

  /** The least divisor is returned if it lies in block `k` and no earlier block saw an
      interrupt, even when an interrupt is pending at the end of block `k` itself. */
  lemma DivisorInBlockWins(product: int, from: int, limit: int, blockSize: int, interrupted: nat -> bool, f: int, k: nat, r: Outcome)
    requires 0 < blockSize
    requires IsLeastDivisor(product, from, limit, f)
    requires BlockLo(from, blockSize, k) <= f < BlockLo(from, blockSize, k + 1)
    requires forall j: nat :: j < k ==> !interrupted(j)
    requires SearchSpec(product, from, limit, blockSize, interrupted, r)
    ensures r == Found(f)
  {
    if r.Found? {
      LeastDivisorUnique(product, from, limit, f, r.factor);
    } else if r.Cancelled? {
      var c: nat :| CancelledAt(product, from, limit, blockSize, interrupted, c);
      if c >= k {
        BlockLoMonotone(from, blockSize, k + 1, c + 1);
      }
    }
  }

  /** Blocks of any positive size tile the range: they are contiguous from `from` to `limit`, so every
      candidate of `[from, limit)` lies in exactly one block and the blocks come in ascending order. */
  lemma BlocksTile(from: int, limit: int, blockSize: int, x: int)
    requires 0 < blockSize
    requires from < limit
    ensures Contiguous(Blocks(from, limit, blockSize))
    ensures Blocks(from, limit, blockSize)[0].lo == from
    ensures Blocks(from, limit, blockSize)[|Blocks(from, limit, blockSize)| - 1].hi == limit
    ensures InUnion(Blocks(from, limit, blockSize), x) <==> from <= x < limit
    ensures forall i, j :: 0 <= i < j < |Blocks(from, limit, blockSize)| ==>
      Blocks(from, limit, blockSize)[i].hi <= Blocks(from, limit, blockSize)[j].lo
  {
    var bs := Blocks(from, limit, blockSize);
    var n := |bs|;
    forall i | 0 <= i < n
      ensures bs[i].lo <= bs[i].hi
    {
      BlocksIndexed(from, limit, blockSize, i);
    }
    forall i, j | 0 <= i < n && j == i + 1 && j < n
      ensures bs[i].hi == bs[j].lo
    {
      BlocksIndexed(from, limit, blockSize, i);
      BlocksIndexed(from, limit, blockSize, j);
    }
    BlocksIndexed(from, limit, blockSize, 0);
    BlocksIndexed(from, limit, blockSize, n - 1);
    BlocksIndexed(from, limit, blockSize, n);
    ContiguousUnion(bs, x);
    forall i, j | 0 <= i < j < n
      ensures bs[i].hi <= bs[j].lo
    {
      ContiguousOrdered(bs, i, j);
    }
  }
}
