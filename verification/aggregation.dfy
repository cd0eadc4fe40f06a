/** The fan-out/fan-in of the IO-bound demo: one task per source counts the long
    words of that source, an open failure (`IOException`) makes the task return 0,
    and the totals of all tasks are added up once every task has finished. */
module Aggregation {
  import opened Options
  import opened LongWords

  /** What a source delivers when its task opens and reads it. */
  datatype Stream =
    | OpenFailure                                   // `getInputStream` throws an `IOException`
    | Readable(lines: seq<string>, readFault: bool) // the lines read; `readFault`: reading then fails

  /** A source is a label for display plus what opening it yields; files and URLs behave alike here. */
  datatype Source = Source(description: string, stream: Stream)

  /** How one task's future completes: with a count, or exceptionally, so that `get()` throws. */
  datatype TaskResult = Count(n: nat) | Failed

  /** One task. An `IOException` while opening is caught and gives 0; a read error surfaces from
      `reader.lines()` as an unchecked exception, which the task does not catch. */
  function RunTask(isLetter: char -> bool, src: Source): (r: TaskResult)
    ensures r == Failed <==> src.stream.Readable? && src.stream.readFault
    ensures src.stream == OpenFailure ==> r == Count(0)
    ensures src.stream.Readable? && !src.stream.readFault ==> r == Count(LinesCount(isLetter, src.stream.lines))
    ensures r.Count? && src.stream.Readable? ==> LONG_LENGTH * r.n <= TotalLength(src.stream.lines)
  {
    match src.stream
    case OpenFailure => Count(0)
    case Readable(lines, readFault) =>
      if readFault then Failed else Count(LinesCount(isLetter, lines))
  }

  /** The futures returned by `invokeAll`: one per source, in source order. */
  function Tasks(isLetter: char -> bool, sources: seq<Source>): (rs: seq<TaskResult>)
    ensures |rs| == |sources|
    ensures forall i :: 0 <= i < |sources| ==> rs[i] == RunTask(isLetter, sources[i])
  {
    seq(|sources|, i requires 0 <= i < |sources| => RunTask(isLetter, sources[i]))
  }

  predicate AllCompleted(rs: seq<TaskResult>) {
    forall i :: 0 <= i < |rs| ==> rs[i].Count?
  }

  /** Sum of the counts, accumulated in list order as the collecting loop does. */
  function Sum(rs: seq<TaskResult>): int {
    if rs == [] then 0
    else Sum(rs[..|rs| - 1]) + (match rs[|rs| - 1] case Count(n) => n case Failed => 0)
  }

  /** The collecting loop: `total += future.get()` for every future in turn. The first future
      that completed exceptionally throws, and no total is produced. */
  method AddUpTotals(rs: seq<TaskResult>) returns (total: Option<int>)
    ensures total.Some? <==> AllCompleted(rs)
    ensures total.Some? ==> total.value == Sum(rs)
  {
    var sum := 0;
    var i := 0;
    while i < |rs|
      invariant 0 <= i <= |rs|
      invariant AllCompleted(rs[..i])
      invariant sum == Sum(rs[..i])
    {
      if rs[i].Failed? {
        assert !AllCompleted(rs);
        return None;
      }
      assert rs[..i + 1][..i] == rs[..i];
      sum := sum + rs[i].n;
      i := i + 1;
    }
    assert rs[..i] == rs;
    return Some(sum);
  }

  /** The reported total of the demo over `sources`, or `None` when it ends with an exception: that
      happens exactly when some source fails while being read. */
  function IoBound(isLetter: char -> bool, sources: seq<Source>): (r: Option<int>)
    ensures r == None <==> exists i :: 0 <= i < |sources| && sources[i].stream.Readable? && sources[i].stream.readFault
    ensures r.Some? ==> r.value >= 0
  {
    var rs := Tasks(isLetter, sources);
    SumNonNegative(rs);
    if AllCompleted(rs) then Some(Sum(rs)) else None
  }

  /** What one source adds to the total when it is read without error. */
  function SourceCount(isLetter: char -> bool, src: Source): nat {
    match src.stream
    case OpenFailure => 0
    case Readable(lines, _) => LinesCount(isLetter, lines)
  }

  /** Independent reference for the printed total: the sources' counts added front to back. */
  function SourceTotal(isLetter: char -> bool, sources: seq<Source>): nat {
    if sources == [] then 0 else SourceCount(isLetter, sources[0]) + SourceTotal(isLetter, sources[1..])
  }

  /** The demo over a single source: no total after a read error, otherwise that source's count. */
  lemma IoBoundSingle(isLetter: char -> bool, src: Source)
    ensures IoBound(isLetter, [src]) ==
      if src.stream.Readable? && src.stream.readFault then None else Some(SourceCount(isLetter, src))
  {
    var r := RunTask(isLetter, src);
    assert Tasks(isLetter, [src]) == [r];
    assert [r][0] == r;
    assert AllCompleted([r]) <==> r.Count?;
    if r.Count? {
      assert [r][..0] == [];
      assert Sum([r]) == r.n;
    }
  }

  /** A printed total is the sum of the long-word counts of the sources, each the sum of its
      lines' counts. */
  lemma {:induction false} IoBoundIsSourceTotal(isLetter: char -> bool, sources: seq<Source>)
    ensures IoBound(isLetter, sources).Some? ==> IoBound(isLetter, sources).value == SourceTotal(isLetter, sources)
    decreases |sources|
  {
    if sources == [] {
      assert Tasks(isLetter, sources) == [];
    } else {
      var head, rest := [sources[0]], sources[1..];
      assert sources == head + rest;
      IoBoundAppend(isLetter, head, rest);
      IoBoundSingle(isLetter, sources[0]);
      IoBoundIsSourceTotal(isLetter, rest);
    }
  }

  lemma {:induction false} SumNonNegative(rs: seq<TaskResult>)
    ensures Sum(rs) >= 0
    decreases |rs|
  {
    if rs != [] {
      SumNonNegative(rs[..|rs| - 1]);
    }
  }

  lemma {:induction false} SumAppend(xs: seq<TaskResult>, ys: seq<TaskResult>)
    ensures Sum(xs + ys) == Sum(xs) + Sum(ys)
    decreases |ys|
  {
    if ys == [] {
      assert xs + ys == xs;
    } else {
      var init := ys[..|ys| - 1];
      assert (xs + ys)[..|xs + ys| - 1] == xs + init;
      SumAppend(xs, init);
    }
  }

  lemma TasksAppend(isLetter: char -> bool, xs: seq<Source>, ys: seq<Source>)
    ensures Tasks(isLetter, xs + ys) == Tasks(isLetter, xs) + Tasks(isLetter, ys)
  {
  }

  /** The total over two lists of sources combines their totals: the sum when both produce one,
      no total when either fails. */
  lemma IoBoundAppend(isLetter: char -> bool, xs: seq<Source>, ys: seq<Source>)
    ensures IoBound(isLetter, xs + ys).Some? <==> IoBound(isLetter, xs).Some? && IoBound(isLetter, ys).Some?
    ensures IoBound(isLetter, xs + ys).Some? ==>
      IoBound(isLetter, xs + ys).value == IoBound(isLetter, xs).value + IoBound(isLetter, ys).value
  {
    var a, b := Tasks(isLetter, xs), Tasks(isLetter, ys);
    TasksAppend(isLetter, xs, ys);
    SumAppend(a, b);
    if AllCompleted(a + b) {
      forall i | 0 <= i < |a|
        ensures a[i].Count?
      {
        assert (a + b)[i] == a[i];
      }
      forall i | 0 <= i < |b|
        ensures b[i].Count?
      {
        assert (a + b)[|a| + i] == b[i];
      }
    }
  }

  /** A source that cannot be opened contributes 0, wherever it stands in the list. */
  lemma OpenFailureContributesZero(isLetter: char -> bool, xs: seq<Source>, ys: seq<Source>, description: string)
    ensures IoBound(isLetter, xs + [Source(description, OpenFailure)] + ys) == IoBound(isLetter, xs + ys)
  {
    var bad := [Source(description, OpenFailure)];
    assert IoBound(isLetter, bad) == Some(0) by {
      assert Tasks(isLetter, bad) == [Count(0)];
      assert [Count(0)][..0] == [];
    }
    IoBoundAppend(isLetter, xs, bad);
    assert xs + [Source(description, OpenFailure)] == xs + bad;
    IoBoundAppend(isLetter, xs + bad, ys);
    IoBoundAppend(isLetter, xs, ys);
  }

  /** Removing the element at `k` removes one occurrence of it from the multiset. */
  lemma MultisetWithout<T>(ys: seq<T>, k: int)
    requires 0 <= k < |ys|
    ensures multiset(ys[..k] + ys[k + 1..]) == multiset(ys) - multiset{ys[k]}
  {
    var pre, post := ys[..k], ys[k + 1..];
    assert ys == pre + ([ys[k]] + post);
    assert multiset(ys) == multiset(pre) + (multiset{ys[k]} + multiset(post));
  }

  lemma MultisetRemoveLast<T>(xs: seq<T>, ys: seq<T>, k: int)
    requires multiset(xs) == multiset(ys)
    requires xs != [] && 0 <= k < |ys| && ys[k] == xs[|xs| - 1]
    ensures multiset(xs[..|xs| - 1]) == multiset(ys[..k] + ys[k + 1..])
  {
    var n := |xs| - 1;
    MultisetWithout(xs, n);
    assert xs[..n] + xs[n + 1..] == xs[..n];
    MultisetWithout(ys, k);
  }

  /** Totals that agree stay in agreement when the same sources are appended. */
  lemma IoBoundAppendSame(isLetter: char -> bool, xs: seq<Source>, ys: seq<Source>, zs: seq<Source>)
    requires IoBound(isLetter, xs) == IoBound(isLetter, ys)
    ensures IoBound(isLetter, xs + zs) == IoBound(isLetter, ys + zs)
  {
    IoBoundAppend(isLetter, xs, zs);
    IoBoundAppend(isLetter, ys, zs);
  }

  /** Moving one source to the end leaves the total unchanged. */
  lemma IoBoundMoveToEnd(isLetter: char -> bool, xs: seq<Source>, x: Source, ys: seq<Source>)
    ensures IoBound(isLetter, xs + [x] + ys) == IoBound(isLetter, xs + ys + [x])
  {
    IoBoundAppend(isLetter, xs + [x], ys);
    IoBoundAppend(isLetter, xs, [x]);
    IoBoundAppend(isLetter, xs + ys, [x]);
    IoBoundAppend(isLetter, xs, ys);
  }

  /** The total does not depend on the order of the sources. */
  lemma {:induction false} IoBoundPermutation(isLetter: char -> bool, xs: seq<Source>, ys: seq<Source>)
    requires multiset(xs) == multiset(ys)
    ensures IoBound(isLetter, xs) == IoBound(isLetter, ys)
    decreases |xs|
  {
    if xs == [] {
      assert ys == [];
    } else {
      var last := xs[|xs| - 1];
      var init := xs[..|xs| - 1];
      assert xs == init + [last];
      assert last in multiset(ys);
      var k :| 0 <= k < |ys| && ys[k] == last;
      var pre, post := ys[..k], ys[k + 1..];
      assert ys == pre + [last] + post;
      MultisetRemoveLast(xs, ys, k);
      IoBoundPermutation(isLetter, init, pre + post);
      IoBoundAppendSame(isLetter, init, pre + post, [last]);
      IoBoundMoveToEnd(isLetter, pre, last, post);
    }
  }
}
