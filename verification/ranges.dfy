/** Half-open integer intervals `[lo, hi)` and sequences of them laid end to end.
    Both the blocks of one factor search and the batches of the parallel search
    are such sequences. */
module Ranges {

  datatype Range = Range(lo: int, hi: int) {
    predicate Contains(x: int) {
      lo <= x < hi
    }
  }

  /** Every range is well formed and each one starts exactly where the previous one ends. */
  ghost predicate Contiguous(rs: seq<Range>) {
    && (forall i :: 0 <= i < |rs| ==> rs[i].lo <= rs[i].hi)
    && (forall i, j :: 0 <= i < |rs| && j == i + 1 && j < |rs| ==> rs[i].hi == rs[j].lo)
  }

  /** `x` lies in some range of `rs`. */
  ghost predicate InUnion(rs: seq<Range>, x: int) {
    exists i :: 0 <= i < |rs| && rs[i].Contains(x)
  }

  /** Ranges laid end to end come in ascending order and never overlap. */
  lemma {:induction false} ContiguousOrdered(rs: seq<Range>, i: int, j: int)
    requires Contiguous(rs)
    requires 0 <= i < j < |rs|
    ensures rs[i].hi <= rs[j].lo
    decreases j - i
  {
    if j > i + 1 {
      ContiguousOrdered(rs, i, j - 1);
      assert rs[j - 1].hi == rs[j].lo;
    } else {
      assert rs[i].hi == rs[j].lo;
    }
  }

  /** Walking forward from range `i`, a point below the last high end is met by some range. */
  lemma {:induction false} ContiguousFind(rs: seq<Range>, x: int, i: int)
    requires Contiguous(rs)
    requires 0 <= i < |rs|
    requires rs[i].lo <= x < rs[|rs| - 1].hi
    ensures InUnion(rs, x)
    decreases |rs| - i
  {
    if x < rs[i].hi {
      assert rs[i].Contains(x);
    } else {
      assert rs[i].hi == rs[i + 1].lo;
      ContiguousFind(rs, x, i + 1);
    }
  }

  /** A contiguous sequence covers exactly the interval from its first low end to its last high end. */
  lemma ContiguousUnion(rs: seq<Range>, x: int)
    requires Contiguous(rs)
    requires |rs| > 0
    ensures InUnion(rs, x) <==> rs[0].lo <= x < rs[|rs| - 1].hi
  {
    var last := |rs| - 1;
    if InUnion(rs, x) {
      var i :| 0 <= i < |rs| && rs[i].Contains(x);
      if i > 0 {
        ContiguousOrdered(rs, 0, i);
      }
      if i < last {
        ContiguousOrdered(rs, i, last);
      }
    } else if rs[0].lo <= x < rs[last].hi {
      ContiguousFind(rs, x, 0);
    }
  }
}
