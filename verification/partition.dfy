/** The batch arithmetic of the compute-bound demo: the candidate range
    `[MIN, MAX)` is cut into one batch of `(MAX - MIN) / P` candidates per
    processor before the batches are handed to the thread pool; as written this
    leaves the top `(MAX - MIN) % P` candidates in no batch. */
module Partition {
  import opened Ranges
  import opened Arithmetic

  /** `1L << BITS`, where `BITS = 31` is the bit width of the generated primes, kept at most 31 so
      that their product fits in a `long`. */
  const MAX: int := 0x8000_0000

  /** `MAX / 2`: a prime of exactly 31 bits lies in `[MIN, MAX)`. */
  const MIN: int := MAX / 2

  /** The product of two values below `MAX` is below `2^62`, so `p1 * p2` cannot overflow a `long`. */
  lemma ProductFitsInLong(p1: int, p2: int)
    requires 0 <= p1 < MAX && 0 <= p2 < MAX
    ensures 0 <= p1 * p2 < 0x4000_0000_0000_0000
    ensures p1 * p2 <= LONG_MAX
  {
    MulMonotone(p1, MAX - 1, p2);
    MulMonotone(p2, MAX - 1, MAX - 1);
    assert p2 * (MAX - 1) == (MAX - 1) * p2;
    assert (MAX - 1) * (MAX - 1) == 0x3FFF_FFFF_0000_0001;
  }

  /** `(max - min) / p`: the length of every batch. */
  function BatchSize(min: int, max: int, p: int): int
    requires 0 < p && min <= max
  {
    (max - min) / p
  }

  /** `p` ranges of width `b` laid end to end from `lo`: range `i` is `[lo + i*b, lo + i*b + b)`. */
  function EqualRanges(lo: int, b: int, p: nat): (bs: seq<Range>)
    requires 0 <= b
    ensures |bs| == p
    ensures Contiguous(bs)
    ensures p > 0 ==> bs[0].lo == lo && bs[p - 1].hi == lo + p * b
    ensures forall i :: 0 <= i < p ==> bs[i].hi - bs[i].lo == b
  {
    var bs := seq(p, i requires 0 <= i < p => Range(lo + i * b, lo + i * b + b));
    assert forall i, j :: 0 <= i < p && j == i + 1 && j < p ==> bs[i].hi == bs[j].lo by {
      forall i, j | 0 <= i < p && j == i + 1 && j < p
        ensures bs[i].hi == bs[j].lo
      {
        MulSucc(i, b);
      }
    }
    MulSucc(p - 1, b);
    bs
  }

  /** Where the as-written batches end: the top `(max - min) % p` candidates are left over. */
  function CoveredEnd(min: int, max: int, p: int): int
    requires 0 < p
  {
    max - (max - min) % p
  }

  /** The batches as the source builds them: batch `i` is `[min + i*b, min + i*b + b)` with
      `b == (max - min) / p`. The remainder `(max - min) % p` is not given to any batch. */
  function Batches(min: int, max: int, p: int): (bs: seq<Range>)
    requires 0 < p && min <= max
    ensures |bs| == p
    ensures Contiguous(bs)
    ensures bs[0].lo == min
    ensures bs[p - 1].hi == CoveredEnd(min, max, p)
    ensures forall i :: 0 <= i < p ==> bs[i].hi - bs[i].lo == BatchSize(min, max, p)
  {
    DivModParts(max - min, p);
    EqualRanges(min, BatchSize(min, max, p), p)
  }

  /** Every as-written batch lies inside `[min, max)`. */
  lemma BatchesWithin(min: int, max: int, p: int, i: int)
    requires 0 < p && min <= max
    requires 0 <= i < p
    ensures min <= Batches(min, max, p)[i].lo <= Batches(min, max, p)[i].hi <= max
  {
    var bs := Batches(min, max, p);
    if 0 < i {
      ContiguousOrdered(bs, 0, i);
    }
    if i < p - 1 {
      ContiguousOrdered(bs, i, p - 1);
    }
  }

  /** Earlier as-written batches end before later ones begin, so no two batches overlap. */
  lemma BatchesOrdered(min: int, max: int, p: int, i: int, j: int)
    requires 0 < p && min <= max
    requires 0 <= i < j < p
    ensures Batches(min, max, p)[i].hi <= Batches(min, max, p)[j].lo
  {
    ContiguousOrdered(Batches(min, max, p), i, j);
  }

  /** The as-written batches cover exactly `[min, max - (max - min) % p)`: the top
      `(max - min) % p` candidates are searched by no batch. */
  lemma BatchesCover(min: int, max: int, p: int, x: int)
    requires 0 < p && min <= max
    ensures InUnion(Batches(min, max, p), x) <==> min <= x < CoveredEnd(min, max, p)
  {
    ContiguousUnion(Batches(min, max, p), x);
  }

  /** The as-written batches cover all of `[min, max)` exactly when `p` divides `max - min`. */
  lemma BatchesCoverAllIff(min: int, max: int, p: int)
    requires 0 < p && min <= max
    ensures (forall x :: min <= x < max ==> InUnion(Batches(min, max, p), x)) <==> (max - min) % p == 0
  {
    if (max - min) % p != 0 {
      BatchesCover(min, max, p, max - 1);
    } else {
      forall x | min <= x < max
        ensures InUnion(Batches(min, max, p), x)
      {
        BatchesCover(min, max, p, x);
      }
    }
  }

  /** Low end of range `i` when ranges of width `b` are laid from `lo` and the first `extra`
      of them take one more element each. */
  function SpreadLo(lo: int, b: int, extra: int, i: int): int {
    lo + i * b + (if i < extra then i else extra)
  }

  lemma SpreadStep(lo: int, b: int, extra: int, i: int)
    ensures SpreadLo(lo, b, extra, i + 1) == SpreadLo(lo, b, extra, i) + b + (if i < extra then 1 else 0)
  {
    MulSucc(i, b);
  }

  lemma SpreadSteps(lo: int, b: int, extra: int, p: nat)
    requires 0 <= b && 0 <= extra <= p
    ensures forall i :: 0 <= i < p ==>
      SpreadLo(lo, b, extra, i) + b <= SpreadLo(lo, b, extra, i + 1) <= SpreadLo(lo, b, extra, i) + b + 1
    ensures SpreadLo(lo, b, extra, 0) == lo
    ensures SpreadLo(lo, b, extra, p) == lo + p * b + extra
  {
    forall i | 0 <= i < p
      ensures SpreadLo(lo, b, extra, i) + b <= SpreadLo(lo, b, extra, i + 1) <= SpreadLo(lo, b, extra, i) + b + 1
    {
      SpreadStep(lo, b, extra, i);
    }
  }

  /** `p` ranges laid end to end from `lo`, the first `extra` of width `b + 1`, the rest of width `b`. */
  function SpreadRanges(lo: int, b: int, extra: int, p: nat): (bs: seq<Range>)
    requires 0 <= b && 0 <= extra <= p
    ensures |bs| == p
    ensures Contiguous(bs)
    ensures p > 0 ==> bs[0].lo == lo && bs[p - 1].hi == lo + p * b + extra
    ensures forall i :: 0 <= i < p ==> b <= bs[i].hi - bs[i].lo <= b + 1
  {
    var bs := seq(p, i requires 0 <= i < p => Range(SpreadLo(lo, b, extra, i), SpreadLo(lo, b, extra, i + 1)));
    SpreadSteps(lo, b, extra, p);
    bs
  }

  /** Batches that absorb the remainder: the first `(max - min) % p` batches take one extra
      candidate each, so sizes differ by at most one and together they are `[min, max)`. */
  function BalancedBatches(min: int, max: int, p: int): (bs: seq<Range>)
    requires 0 < p && min <= max
    ensures |bs| == p
    ensures Contiguous(bs)
    ensures bs[0].lo == min
    ensures bs[p - 1].hi == max
    ensures forall i :: 0 <= i < p ==>
      BatchSize(min, max, p) <= bs[i].hi - bs[i].lo <= BatchSize(min, max, p) + 1
  {
    DivModParts(max - min, p);
    SpreadRanges(min, BatchSize(min, max, p), (max - min) % p, p)
  }

  /** The balanced batches cover `[min, max)` for every processor count. */
  lemma BalancedBatchesCover(min: int, max: int, p: int, x: int)
    requires 0 < p && min <= max
    ensures InUnion(BalancedBatches(min, max, p), x) <==> min <= x < max
  {
    ContiguousUnion(BalancedBatches(min, max, p), x);
  }
}
