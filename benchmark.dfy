/** The benchmark driver of main.cpp: `count_files_test` runs one counting
    strategy `TEST_COUNT` times over the same files, clearing the table
    before every run, and then reports the top `TOPK` words; the program
    runs the three strategies in turn and stops at the first failing one. */
module Benchmark {
  import opened FrequencyTable
  import opened FileCounter
  import opened Aggregation
  import opened TopK

  /** `TEST_COUNT`: how many times each strategy is run. */
  const TestCount: nat := 5

  /** `TOPK`: how many words are reported. */
  const TopKSize: nat := 10

  /** The counting function handed to `count_files_test`. */
  datatype Strategy = Sync | Async | Threaded

  /** The result of one `count_files_test`: "Test failed", or success with
      the top-k report. */
  datatype Outcome = Failed | Passed(report: Report)

  /** Calls the counting function `s` stands for. Whichever it is, it
      succeeds exactly when every file opens, and then the table holds the
      word counts of all files added to what it held before. */
  method RunStrategy(s: Strategy, fs: FileSystem, names: seq<FileName>, counter: Counter)
    returns (ok: bool)
    modifies counter
    ensures ok <==> AllOpen(fs, names)
    ensures ok ==> counter.counts == Merge(old(counter.counts), SumFiles(fs, names))
  {
    match s
    case Sync =>
      ghost var before := counter.counts;
      ghost var attempted;
      ok, attempted := CountFilesSync(fs, names, counter);
      if ok {
        StrategiesAgree(before, fs, names);
      }
    case Async =>
      ok := CountFilesAsync(fs, names, counter);
    case Threaded =>
      ok := CountFilesThread(fs, names, counter);
  }

  /** `count_files_test(name, filenames, count_files)` without the banner and
      the timing: because the table is cleared before every run, each run
      starts from the same state, and the reported table is the word counts
      of all files, whatever the strategy. */
  method CountFilesTest(s: Strategy, fs: FileSystem, names: seq<FileName>) returns (outcome: Outcome)
    ensures outcome.Failed? <==> !AllOpen(fs, names)
    ensures outcome.Passed? ==> IsTopK(SumFiles(fs, names), TopKSize, outcome.report)
  {
    var counter := new Counter();
    for i := 0 to TestCount
      invariant 0 < i ==> AllOpen(fs, names) && counter.counts == SumFiles(fs, names)
    {
      counter.Clear();
      var ok := RunStrategy(s, fs, names, counter);
      if !ok {
        return Failed;
      }
      MergeEmpty(SumFiles(fs, names));
    }
    var report := TopK.TopK(counter.counts, TopKSize);
    return Passed(report);
  }

  /** The three tests `main` chains with `&&`: each runs only when the ones
      before it passed. Either all pass, with reports of the same table, or
      the first fails and the others do not run. */
  method RunAllTests(fs: FileSystem, names: seq<FileName>) returns (success: bool, reports: seq<Report>)
    ensures success <==> AllOpen(fs, names)
    ensures success ==> |reports| == 3
    ensures !success ==> reports == []
    ensures forall i :: 0 <= i < |reports| ==> IsTopK(SumFiles(fs, names), TopKSize, reports[i])
  {
    reports := [];
    var outcome := CountFilesTest(Sync, fs, names);
    if outcome.Failed? {
      return false, reports;
    }
    reports := reports + [outcome.report];
    outcome := CountFilesTest(Async, fs, names);
    if outcome.Failed? {
      return false, reports;
    }
    reports := reports + [outcome.report];
    outcome := CountFilesTest(Threaded, fs, names);
    if outcome.Failed? {
      return false, reports;
    }
    reports := reports + [outcome.report];
    return true, reports;
  }
}
