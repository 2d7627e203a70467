# Word frequency counter, modelled in Dafny

This project models `main.cpp`, a small C++ program that counts how often
each word occurs across a list of files. It runs three tests over the same
files, one per counting strategy: sequentially, with one `std::async` task
per file, and with one `std::thread` per file. Each test runs its strategy
`TEST_COUNT` times and then prints the ten most frequent words. The program
does not compare the results; the model proves they agree
(`Aggregation.StrategiesAgree`, `Benchmark.RunAllTests`).

The model follows the program's structure:

- `Text` (text.dfy): bytes of a `std::string` and `tolower`, the
  byte-wise case folding in the C locale.
- `Tokenizer` (tokenizer.dfy): what `std::istream_iterator<std::string>`
  extracts from a stream, i.e. maximal runs of non-whitespace bytes.
- `FrequencyTable` (frequency_table.dfy): the `Counter` table
  (`std::map<std::string, size_t>`) as a class with a `map<Word, nat>` field,
  its in-place updates (`++counter[w]`, `dest[w] += n`, `clear()`), the
  merge of two tables, and the counting of a token sequence.
- `FileCounter` (file_counter.dfy): `count_words`, `count_file` and
  `threadsafe_count_file`. A file system maps every name that opens to its
  contents. A name absent from it fails to open.
- `Aggregation` (aggregation.dfy): `count_files_sync`,
  `count_files_async` and `count_files_thread`. In the two concurrent
  strategies the tasks run one after another, and each next task is
  chosen arbitrarily among those not yet run. Every order the scheduler can
  produce is therefore covered. The main results are these:
  - merging the per-file tables gives the same table in every order;
  - counting straight into the table equals merging private tables;
  - all three strategies leave the same table when every file opens.
- `TopK` (topk.dfy): the selection in `print_topk`. The table's entries are
  gathered into an array and partially sorted by descending count, and the
  first `min(k, size)` are reported.
- `Benchmark` (benchmark.dfy): `count_files_test`. It clears the table
  before each of its `TEST_COUNT` runs and reports the top `TOPK` words.
  The module also chains the three tests as `main` does.

Two choices follow directly from the code:

- The comparator given to `std::partial_sort` compares counts only, and
  the algorithm is not stable, so the order among equal counts is
  unspecified. The model allows every such order, and
  `TopK.TopCountsDetermined` proves that the counts are the same at every
  rank.
- `std::tolower` is applied to each byte in the C locale, so only `A`..`Z`
  change.

## Model

| member | source | states |
|---|---|---|
| Text.ToLowerByte | main.cpp:97 | the result is never a capital; a byte changes exactly when it is a capital, and then it moves to its lowercase letter |
| Text.ToLower | main.cpp:93-99 | the result has the input's length, and each byte is the case folding of the input byte at the same position |
| Text.ToLowerIdempotent | main.cpp:93-99 | the result of `tolower` has no capitals, and folding it again gives it back unchanged |
| Text.LowerIsFixed | main.cpp:93-99 | a string without capitals is its own case folding |
| Text.ToLowerConcat | main.cpp:93-99 | folding a concatenation is concatenating the foldings |
| Tokenizer.RunLength | main.cpp:102-103 | a token is read up to, and not including, the first whitespace byte or the end of the stream |
| Tokenizer.Tokens | main.cpp:102-103 | every extracted token is non-empty and contains no whitespace |
| Tokenizer.BlankHasNoTokens | main.cpp:102-103 | a stream of whitespace only, the empty stream included, yields no token |
| Tokenizer.TokensOfJoin | main.cpp:102-103 | round trip: the tokens of a space-joined token list are that list |
| Tokenizer.TokensKeepNonSpace | main.cpp:102-103 | the tokens laid end to end are exactly the stream's non-whitespace bytes, in order |
| FrequencyTable.Inc | main.cpp:104 | `++counter[w]` adds `w` to the keys, raises its count by one, and leaves every other count unchanged |
| FrequencyTable.Merge | main.cpp:139-142 | the merged keys are the union of both tables' keys, and each count is the sum of the two counts |
| FrequencyTable.MergeCommutative | main.cpp:139-142 | merge is commutative |
| FrequencyTable.MergeAssociative | main.cpp:139-142 | merge is associative |
| FrequencyTable.MergeEmpty | main.cpp:136 | the empty table is the identity of merge on both sides |
| FrequencyTable.MergeNoZeros | main.cpp:139-142 | merging two tables without zero entries creates none |
| FrequencyTable.HitsZero | main.cpp:101-105 | a word is hit zero times exactly when no token folds to it |
| FrequencyTable.CountTokens | main.cpp:101-105 | the fold of `++counter[tolower(s)]` over the tokens, first to last; what it computes is stated by the lemmas below |
| FrequencyTable.CountTokensCounts | main.cpp:101-105 | after counting, every word's count is its old count plus the number of tokens that fold to it; words no token hits keep their counts |
| FrequencyTable.CountTokensKeys | main.cpp:101-105 | after counting, a word is a key exactly when it was one before or some token folds to it |
| FrequencyTable.CountTokensNoZeros | main.cpp:101-105 | counting never creates a zero-count entry |
| FrequencyTable.TotalInc | main.cpp:104 | one increment raises the sum of all counts by exactly one |
| FrequencyTable.CountTokensTotal | main.cpp:101-105 | counting raises the sum of all counts by the number of tokens |
| FrequencyTable.CountTokensIsMerge | main.cpp:136-142 | counting into a table equals counting into a fresh private table and merging that in |
| FrequencyTable.Counter.constructor | main.cpp:72 | a new `Counter` (as is the private `current_freq_dict` at line 136) is the empty table |
| FrequencyTable.Counter.Clear | main.cpp:75 | `clear()` leaves the empty table |
| FrequencyTable.Counter.Increment | main.cpp:104 | the table becomes `Inc` of the old table and keeps having no zero entries |
| FrequencyTable.Counter.Add | main.cpp:141 | `freq_dict[w] += n` merges the one-entry table `w -> n` into the table; with `n >= 1` it keeps having no zero entries |
| FrequencyTable.WordCounts | main.cpp:136-137 | the private table of one text: its tokens counted into an empty table |
| FileCounter.Contribution | main.cpp:136-137 | what one file adds to the shared table: its word counts when it opens, the empty table when it does not |
| FileCounter.CountWords | main.cpp:101-105 | the new table is the old one with every token of the stream, case-folded, counted in stream order |
| FileCounter.CountFile | main.cpp:107-121 | the result is `true` exactly when the file opens; on failure the table is unchanged; on success its contents are counted in |
| FileCounter.MergeOneKey | main.cpp:139-142 | adding one more key of the private table extends the part of it already merged by that key |
| FileCounter.ThreadsafeCountFile | main.cpp:133-148 | the result is `true` exactly when the file opens; on failure the shared table is unchanged; otherwise the file's own table is merged into it |
| Aggregation.FirstFailure | main.cpp:124-128 | the position of the first file that fails to open: every file before it opens, it does not, and it is the list's length exactly when all open |
| Aggregation.SequentialCounts | main.cpp:123-131 | the table `count_files_sync` builds: each file that opens counted straight into the table, in list order |
| Aggregation.SumFiles | main.cpp:150-189 | what the concurrent strategies merge: every file's contribution, merged in list order |
| Aggregation.SumFilesConcat | main.cpp:150-168 | the merge of all files' tables equals the merge of the two sums over any split of the list |
| Aggregation.SumFilesMoveLast | main.cpp:150-168 | any one file's table can be merged last instead of in its place |
| Aggregation.SumFilesPermutation | main.cpp:150-168 | merging the files' tables in any permutation of the list gives the same table |
| Aggregation.AllIndices | main.cpp:153 | the set of all task positions `0 .. n-1` |
| Aggregation.SumOver | main.cpp:150-189 | the merge of the contributions of the finished tasks, in an arbitrary order |
| Aggregation.SumOverAt | main.cpp:150-168 | the sum over a set of completed tasks does not depend on which task finished last |
| Aggregation.SumOverAll | main.cpp:150-168 | running every task once, in any order, merges the same table as merging the files in list order |
| Aggregation.SequentialIsMerged | main.cpp:123-131 | counting every file straight into the table, in list order, equals merging every file's private table into it |
| Aggregation.SumFilesNoZeros | main.cpp:139-142 | the merged table of any list of files has no zero entries |
| Aggregation.CountFilesSync | main.cpp:123-131 | returns `true` exactly when every file opens; the table is the in-order count of the files before the first failure; the files attempted are those up to and including the first failure, and none after it |
| Aggregation.MergeOneMore | main.cpp:155 | one more finished task merges that file's table into the shared table |
| Aggregation.RunTasks | main.cpp:151-159 | every task runs, each future holds whether its file opened, and the shared table gains every file's table, failures notwithstanding |
| Aggregation.AwaitAll | main.cpp:161-167 | the combined result is `true` exactly when every future delivered `true` |
| Aggregation.CountFilesAsync | main.cpp:150-168 | returns `true` exactly when every file opens, and the shared table gains every file's table in any case |
| Aggregation.CountFilesThread | main.cpp:170-189 | returns `true` exactly when every file opens, and the shared table gains every file's table in any case |
| Aggregation.StrategiesAgree | main.cpp:123-131 | when every file opens, the sequential strategy leaves the same table as the concurrent ones |
| TopK.IsTopSelection | main.cpp:47-63 | what `print_topk` may emit for a non-empty table: `min(k, size)` distinct table entries, non-increasing counts, no larger count left out |
| TopK.IsTopK | main.cpp:41-63 | "Empty result" for an empty table, otherwise a valid top-k selection |
| TopK.SmallTableFullyReported | main.cpp:47 | when `k` is at least the table's size, every entry is reported |
| TopK.TopCountsDetermined | main.cpp:55-57 | any two valid selections report the same count at every rank; only the words among ties can differ |
| TopK.RankNotAbove | main.cpp:55-57 | the count at a rank of one valid selection is never above the count at that rank of another |
| TopK.DistinctWordsPermutation | main.cpp:55-57 | rearranging table entries keeps their words distinct |
| TopK.MaxFrom | main.cpp:55-57 | the returned position holds a largest count at or after `lo` |
| TopK.SelectStep | main.cpp:55-57 | swapping a largest remaining count to the front of the rest extends the sorted prefix by one, that prefix still dominates the rest, and the elements are only rearranged |
| TopK.PartialSort | main.cpp:55-57 | the array is a rearrangement of the old one whose first `k` counts are non-increasing and no smaller than any count after them |
| TopK.SortedSelection | main.cpp:55-63 | the first `min(k, size)` entries after the partial sort are a valid top-k |
| TopK.GatherStep | main.cpp:51-53 | pushing one more entry keeps the gathered entries real, distinct, and covering every word visited |
| TopK.Gather | main.cpp:49-53 | the vector holds one entry per table entry: real entries, distinct words, and every word of the table |
| TopK.TopK | main.cpp:41-64 | an empty table gives "Empty result"; otherwise exactly `min(k, size)` distinct table entries in non-increasing count order, with no entry left out having a larger count than one reported |
| Benchmark.RunStrategy | main.cpp:66-67 | whichever counting function is passed, it succeeds exactly when every file opens, and the table then gains every file's table |
| Benchmark.CountFilesTest | main.cpp:66-91 | the test fails exactly when some file does not open; otherwise it reports a top-`TOPK` of the word counts of all files, whatever the strategy |
| Benchmark.RunAllTests | main.cpp:33-36 | the three tests all pass exactly when every file opens, and each reports a top-`TOPK` of the same table; otherwise none passes |

## Left out

- The command line: the argument count check, the usage message and the
  exit code. The list of names after the program name is the `names`
  parameter.
- Timing with `std::chrono` and the printed microsecond average. These
  are measurement, not logic.
- The output text. This covers the `setw(4)` layout of each reported line
  and the "Starting test" and "Test failed" banners. The printed lines of
  `print_topk` are modelled as the `Report` value.
- Streams and files. `std::ifstream` is the `FileSystem` parameter (a name
  that is absent fails to open). The file system does not change during a
  run: every test and every repetition sees the same files with the same
  contents, which is what lets a failing first test stand for all three
  and every repetition compute the same table. The failure diagnostic written through
  `osyncstream` is not modelled.
- Concurrency itself: `std::async`, `std::thread`, the function-static
  `std::mutex` around each per-key update, the `std::atomic` flag and the
  joins. The model runs tasks one at a time in an arbitrary order and does
  not model interleaved merges of different tasks. Those interleavings
  leave the same table, because each merged key is updated under the lock
  and merge is commutative and associative.
- Locales: `std::tolower` and whitespace are those of the C locale.
- Fixed-width integers: `size_t` counts are unbounded naturals. Overflow
  would need more than 2^64 tokens.
- `std::partial_sort` is a library algorithm. It is modelled by a
  selection-based partial sort with the same guarantee: the first `k`
  elements are the largest, in order, and the rest is a rearrangement.
- TopK.TopK: states the result only up to the order among equal counts,
  because neither the comparator nor `std::partial_sort` fixes that order.
  For the same reason, TopK.Gather visits the table's keys in an arbitrary
  order, not the map's ascending key order.
- FileCounter.ThreadsafeCountFile: merges the private table's keys in an
  arbitrary order, not the map's ascending key order. The resulting table
  is the same.
- Benchmark.CountFilesTest: the `TEST_COUNT` repetitions are all modelled.
  Because the table is cleared first, every repetition computes the same
  table. The timing they exist for is not modelled.
