# Day 28 thread demos: the sequential core

A Dafny model of the logic under the thread demos of `bhoward/Spring2021-CSC232-Day28`. The
same code appears twice, in `demo/` and inside `Main.java`, and one model covers both copies.

- **Compute-bound demo.** The product of two 31-bit primes is factored by `factorSearch`. It
  scans `[from, to)` in blocks of `BLOCK_SIZE` candidates and returns the first divisor it finds.
  After each block it checks for thread interruption, and it throws `NoSuchElementException`
  when the range holds no divisor. The multi-processor variant cuts `[MIN, MAX)` into `P` batches
  of `(MAX - MIN) / P` candidates each, one per processor, which leaves the top
  `(MAX - MIN) % P` candidates unassigned, and submits the batch searches with `invokeAny`.
- **IO-bound demo.** One task per source counts the "long words" of that source. A long word is
  a piece, left when a line is split around runs of non-letters, whose Java `length()` is at
  least 12. An `IOException` on opening the source makes the task return 0, and the totals of all tasks are
  added up.

Modules, one per file:

- `Ranges` (`ranges.dfy`): half-open intervals and sequences of them laid end to end. It proves
  that such a sequence is ordered and covers exactly the span from its first low end to its last
  high end.
- `Arithmetic` (`arithmetic.dfy`): small facts about multiplication, division and remainder.
- `FactorSearch` (`factor_search.dfy`) models `factorSearch`:
  - `Search` is the blocked scan, a method with nested loops. It returns `Found(f)`, `NotFound`
    or `Cancelled`.
  - Interruption is an oracle `interrupted(k)`, polled after block `k` has been scanned.
  - `LinearScan` is the flat one-candidate-at-a-time reference that `Search` is compared with.
- `Partition` (`partition.dfy`): the batch arithmetic of the multi-processor search, as written
  (`Batches`) and corrected (`BalancedBatches`).
- `Coordinator` (`coordinator.dfy`) models `invokeAny`. The scheduler picks the order in which
  tasks complete, and the first task that returns a factor supplies the result.
- `LongWords` (`long_words.dfy`): Java's `line.split("[\\PL]+")`, the per-line count, the
  per-source sum, and an independent single-pass count of maximal letter runs.
- `Aggregation` (`aggregation.dfy`): sources, the per-source task with its `IOException`
  handling, the loop that adds up the futures, and the total over all sources.
- `Options` (`options.dfy`): the `Option` type.

Notes on how the model reads the code:

- Which characters are letters (Unicode category L) is a parameter `isLetter`. Every result
  holds for any classification.
- `Thread.sleep(0)` runs after every block, including the last one. So an interrupt pending
  after the last block gives `Cancelled`, not `NotFound`.
- Word lengths are Java lengths: UTF-16 code units (`Utf16Length`), so a letter outside the
  Basic Multilingual Plane counts two.
- `IsDivisor` tests `product % d == 0`. A zero remainder means the same thing under Java's
  truncating `%` and Dafny's Euclidean `%`.

## Model

| member | source | states |
|---|---|---|
| FactorSearch.Search | demo/ComputeBound.java:98-117 | On inputs where the Java loop is well defined (`from >= 1`, no overflow of `blockStart`): a returned factor is the least divisor of `product` in `[from, to)`, and no interrupt was seen before its block. Not-found means the range holds no divisor and no block saw an interrupt, the last block included. Cancelled means some block saw the first interrupt after every candidate up to its end had been checked and found not to divide. |
| FactorSearch.LinearScan | demo/ComputeBound.java:100-108 | The flat reference scan never cancels. A factor it returns is the least divisor in the range, and it ends as not-found exactly when the range holds no divisor. |
| FactorSearch.UninterruptedIsLinear | demo/ComputeBound.java:100-115 | Without interruption, the blocked search ends exactly as the flat scan, for every block size. |
| FactorSearch.BlockSizeIrrelevant | Main.java:189-190 | Without interruption, two block sizes give the same outcome. |
| FactorSearch.BlocksIndexed | demo/ComputeBound.java:100-101 | Block `k` of the loop is `[blockStart_k, min(blockStart_k + BLOCK_SIZE, to))`, and it exists exactly when `blockStart_k < to`. |
| FactorSearch.BlocksTile | demo/ComputeBound.java:100-101 | For every positive block size, the blocks are contiguous from `from` to `to` and come in ascending order without overlap. A candidate lies in some block iff it lies in `[from, to)`. |
| FactorSearch.BlockLoClosedForm | demo/ComputeBound.java:100 | The `k`-th block starts `k * BLOCK_SIZE` after `from`. |
| FactorSearch.DivisorInBlockWins | demo/ComputeBound.java:104-111 | If the least divisor lies in block `k` and no earlier block saw an interrupt, it is returned, even when an interrupt is pending at the end of block `k`. |
| FactorSearch.NoDivisorNoFactor | Main.java:189-204 | A range without a divisor never yields a factor. An empty range always ends as not-found. |
| FactorSearch.SearchDeterministic | demo/ComputeBound.java:110-115 | For a given oracle the outcome is unique. In particular, found, not-found and cancelled never describe the same run. |
| Partition.ProductFitsInLong | demo/ComputeBound.java:24-31 | The product of two values below `MAX = 2^31` is non-negative and below `2^62`, so `p1 * p2` does not overflow a `long`. |
| Partition.Batches | demo/ComputeBound.java:55-60 | There are `P` batches, each of size `(MAX - MIN) / P`, contiguous from `MIN`. The last ends at `MAX - (MAX - MIN) % P`, which is `MAX` only when `P` divides `MAX - MIN`. |
| Partition.BatchesWithin | Main.java:157-162 | Every batch lies in `[MIN, MAX)`, for every processor count including one. |
| Partition.BatchesOrdered | Main.java:157-162 | Earlier batches end before later ones begin, so no candidate is searched twice. |
| Partition.BatchesCover | demo/ComputeBound.java:55-60 | A candidate is in some batch iff it lies in `[MIN, MAX - (MAX - MIN) % P)`. |
| Partition.BatchesCoverAllIff | demo/ComputeBound.java:55-58 | The batches cover all of `[MIN, MAX)` iff `P` divides `MAX - MIN`. |
| Partition.BalancedBatches | demo/ComputeBound.java:49-60 | The corrected batches: `P` contiguous batches from `MIN` to exactly `MAX`, with sizes `b` or `b + 1`. |
| Partition.BalancedBatchesCover | demo/ComputeBound.java:49-60 | A candidate is in some corrected batch iff it lies in `[MIN, MAX)`. |
| Coordinator.TaskOutcomes | demo/ComputeBound.java:54-60 | A batch task that runs to completion never ends cancelled. A factor it returns is the least divisor in its batch, and it ends not-found iff its batch holds no divisor. |
| Coordinator.FirstFound | demo/ComputeBound.java:64 | `invokeAny` reports a value only if some task, in completion order, found it. It reports nothing iff no task found a factor. |
| Coordinator.ParallelSearch | demo/ComputeBound.java:62-64 | A reported factor is the least divisor of one of the batches whose tasks completed. Nothing is reported iff none of those batches holds a divisor. |
| Coordinator.ParallelSearchSound | demo/ComputeBound.java:54-70 | For every completion order, a reported factor is the least divisor of some batch, divides the product, and lies in the covered span. Nothing is reported iff the covered span holds no divisor. |
| Coordinator.ComputeBoundAsWritten | demo/ComputeBound.java:54-64 | With the batches as written, a reported factor divides the product and lies in `[MIN, MAX - (MAX - MIN) % P)`. |
| Coordinator.DemoSearchesDefined | demo/ComputeBound.java:38-59 | Every search the demo starts, over `[MIN, MAX)` or over one batch (as written or balanced), meets the requirements of `Search` with `BLOCK_SIZE = 1000000`: `from >= 1`, and `blockStart` cannot pass `Long.MAX_VALUE`. |
| Coordinator.ComputeBoundAsWrittenSound | Main.java:156-166 | With the batches as written, a reported factor divides and lies in `[MIN, MAX)`. Nothing is reported iff `[MIN, MAX - (MAX - MIN) % P)` holds no divisor. |
| Coordinator.AsWrittenMissesTopValue | demo/ComputeBound.java:55-64 | With 3 processors and any product whose only divisor in `[MIN, MAX)` is `2^31 - 1`, the single-processor search finds `2^31 - 1`. The multi-processor search reports nothing, whatever the completion order. |
| Coordinator.TopValueMissed | demo/ComputeBound.java:55-64 | The product `2^31 - 1` is such a product: the single-processor search finds it and the three-processor search does not. |
| Coordinator.ComputeBound | demo/ComputeBound.java:49-64 | With the corrected batches, a reported factor divides the product and lies in `[MIN, MAX)`. |
| Coordinator.ComputeBoundSound | demo/ComputeBound.java:36-70 | With the corrected batches, the multi-processor search reports a factor iff the single-processor search finds one, for every processor count and completion order. A reported factor divides and lies in `[MIN, MAX)`. |
| LongWords.Split | demo/IOBound.java:45 | Every word is all letters, and no word after the first is empty. A line that is all letters gives the line itself. Otherwise the last word, if any, is non-empty: trailing empty strings are dropped. |
| LongWords.SplitIsRuns | demo/IOBound.java:45 | `split` returns the line's maximal runs of letters in order, as an independent character-by-character walk collects them. One empty first word precedes them when the line starts with a non-letter and has a word. A line that is all letters, the empty line included, comes back whole. |
| LongWords.PiecesShape | demo/IOBound.java:45 | The pieces between maximal non-letter runs are all letters, and only the first and last may be empty. There is one piece, the line itself, iff the line is all letters. |
| LongWords.DropTrailingEmptyCount | demo/IOBound.java:45-50 | Dropping trailing empty strings never changes the long-word count. |
| LongWords.CountLong | demo/IOBound.java:46-50 | A word counts at most once. The count is zero iff every word is shorter than 12 UTF-16 code units. |
| LongWords.LineCount | demo/IOBound.java:45-51 | A line's count is the number of its maximal runs of letters whose Java length is at least `LONG_LENGTH = 12`. |
| LongWords.LineCountIsScan | demo/IOBound.java:44-51 | A line's count equals the number of maximal runs of letters at least `LONG_LENGTH = 12` code units long, as counted by an independent left-to-right scan. |
| LongWords.LineCountBound | demo/IOBound.java:45-49 | `12 * count <= line.length()`. |
| LongWords.AllLettersLineCount | demo/IOBound.java:45-50 | A line made only of letters counts one iff its `length()` is at least 12, and zero otherwise. |
| LongWords.SupplementaryLettersCount | demo/IOBound.java:48 | Six letters U+1D400 form one long word: their Java length is 12 although the line has six characters. |
| LongWords.NoLettersCountsZero | demo/IOBound.java:45-50 | A line with no letters, the empty line included, counts zero. |
| LongWords.LinesCountAppend | demo/IOBound.java:44-52 | A source's count is additive over its lines: `count(xs + ys) == count(xs) + count(ys)`. |
| LongWords.LinesCount | demo/IOBound.java:44-52 | `12 * count <=` the total Java length of a source's lines. |
| LongWords.LinesCountSingle | demo/IOBound.java:44-52 | A one-line source counts that line; with `LinesCountAppend`, a source's count is the sum of its lines' counts. |
| Aggregation.RunTask | demo/IOBound.java:39-60 | An open failure gives 0. A read error makes the task fail, and nothing else does. A source read without error gives the long-word count of its lines, which is bounded by the source's length. |
| Aggregation.Tasks | demo/IOBound.java:38-39 | There is one task result per source, in source order, and result `i` is what source `i`'s task ends with. |
| Aggregation.AddUpTotals | demo/IOBound.java:64-73 | The loop produces a total iff every task completed, and that total is the sum of the counts. |
| Aggregation.IoBound | demo/IOBound.java:38-73 | The demo ends without a total iff some source fails while being read. A total is never negative. |
| Aggregation.IoBoundSingle | demo/IOBound.java:38-71 | Over one source, the demo has no total after a read error and otherwise prints that source's count (0 when it cannot be opened). |
| Aggregation.IoBoundIsSourceTotal | demo/IOBound.java:44-71 | A printed total equals an independent front-to-back sum over the sources of each source's long-word count. |
| Aggregation.IoBoundAppend | Main.java:250-258 | Totals combine over concatenated source lists. The whole produces a total iff both parts do, and it is their sum. |
| Aggregation.OpenFailureContributesZero | demo/IOBound.java:56-58 | Adding a source that cannot be opened, anywhere in the list, leaves the total unchanged. |
| Aggregation.IoBoundPermutation | demo/IOBound.java:65-70 | The total does not depend on the order of the sources. |

## Left out

- Race-condition demo (`Counter`, `RaceCondition`, `Main.java:35-117`): its result depends on how the scheduler interleaves the two threads, so there is no sequential behaviour to state.
- Thread pools and scheduling: `ExecutorService`, thread start, join and shutdown are not modelled.
  - `invokeAny` is modelled as a completion order chosen by the scheduler.
  - `invokeAll` is modelled as one result per source.
  - The loser tasks that `invokeAny` cancels are not modelled, because a loser is interrupted only after a winner exists.
- Source plumbing (`Source`, `FileSource`, `URLSource`): files and URLs become a `Stream` value, either an open failure or the lines read plus a read-fault flag.
- Input generation (`BigInteger.probablePrime`, `Random`), timing (`System.currentTimeMillis`) and console output are left out. They do not affect the results.
- The parallel-stream search (`demo/ComputeBound.java:73-84`) is a library call and is left out.
- Unicode letter classification is the parameter `isLetter`.
- FactorSearch.Search: requires `SearchDefined`: `from >= 1` and `to - 1 + blockSize <= Long.MAX_VALUE`. The Java method does run outside these inputs, and the model does not describe those runs. With `to <= from` it throws `NoSuchElementException`. With `from < 0 <= to - 1` it returns a negative divisor, `-1` at the latest. With `from < to < 0` it returns the first divisor in range or throws `NoSuchElementException`. With `from == 0 < to` it divides by zero (`ArithmeticException`). On overflow, `blockStart` wraps. Every search the demo starts has `from >= 2^30` and `to <= 2^31`, so it meets the requirements (`DemoSearchesDefined`).
- Coordinator.ParallelSearch: every batch task is modelled as running to completion, and its outcome is the flat scan of its batch. An uninterrupted blocked search is that scan by `UninterruptedIsLinear`.
- Aggregation.AddUpTotals: the Java `int` total wraps at 2^31; the model sums unbounded integers.
- LongWords.LinesCount: the per-source `int result = ….sum()` also wraps at 2^31; the model sums unbounded integers.
- Aggregation.RunTask: an `IOException` thrown when the reader is closed is not modelled.
- Coordinator.AsWrittenMissesTopValue: assumes a product whose only divisor in `[MIN, MAX)` is `2^31 - 1`. The demo's product with `p1 = p2 = 2^31 - 1` is one, because `2^31 - 1` is prime, but that primality is not proved. `TopValueMissed` discharges the assumption for the product `2^31 - 1` itself.

## Findings

| source | as written | input that shows it | evidently intended | confidence | as-written member | corrected member |
|---|---|---|---|---|---|---|
| demo/ComputeBound.java:55-60 | Batch `i` is `[MIN + i*b, MIN + i*b + b)` with `b = (MAX - MIN) / processors`. The top `(MAX - MIN) % processors` candidates belong to no batch. | `processors = 3`: `2^30 % 3 == 1`, so `2^31 - 1` is never searched. When both generated primes are `2^31 - 1`, or for any product whose only divisor in `[MIN, MAX)` is `2^31 - 1`, the one-processor search finds a factor and the multi-processor search reports none. | The batches cover `[MIN, MAX)`, as "dividing the range evenly into batches" says. | not executed | Coordinator.AsWrittenMissesTopValue | Coordinator.ComputeBoundSound |
| Main.java:157-162 | The same batch loop as in `demo/ComputeBound.java`. | Same input as above. | Same as above. | not executed | Coordinator.ComputeBoundAsWrittenSound | Coordinator.ComputeBoundSound |
