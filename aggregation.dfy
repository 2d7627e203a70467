/** The three aggregation strategies of main.cpp: `count_files_sync`,
    `count_files_async` and `count_files_thread`. The concurrent ones are
    modelled by their observable outcome: every file is processed exactly
    once, each next file chosen arbitrarily among those not yet processed
    (so any permutation of the list can occur), and each success is merged
    into the shared table. */
module Aggregation {
  import opened Tokenizer
  import opened FrequencyTable
  import opened FileCounter

  /** Every file of the list opens. */
  predicate AllOpen(fs: FileSystem, names: seq<FileName>) {
    forall i :: 0 <= i < |names| ==> names[i] in fs
  }

  /** The index of the first file that fails to open, or `|names|` if all open. */
  function FirstFailure(fs: FileSystem, names: seq<FileName>): (i: nat)
    ensures i <= |names|
    ensures forall j :: 0 <= j < i ==> names[j] in fs
    ensures i < |names| ==> names[i] !in fs
    ensures i == |names| <==> AllOpen(fs, names)
  {
    if names == [] then 0
    else if names[0] !in fs then 0
    else 1 + FirstFailure(fs, names[1..])
  }

  /** Counting the files one after the other straight into `t`, as
      `count_file` does; a file that does not open changes nothing. */
  function SequentialCounts(t: Table, fs: FileSystem, names: seq<FileName>): Table
    decreases |names|
  {
    if names == [] then t
    else
      var acc := SequentialCounts(t, fs, names[..|names| - 1]);
      var last := names[|names| - 1];
      if last in fs then CountTokens(acc, Tokens(fs[last])) else acc
  }

  /** The merge of the contributions of all the files, in list order. */
  function SumFiles(fs: FileSystem, names: seq<FileName>): Table
    decreases |names|
  {
    if names == [] then map[]
    else Merge(SumFiles(fs, names[..|names| - 1]), Contribution(fs, names[|names| - 1]))
  }

  /** Merging grouped tables equals merging all of them: the sum over a list
      split in two is the merge of the sums over the parts. */
  lemma {:induction false} SumFilesConcat(fs: FileSystem, a: seq<FileName>, b: seq<FileName>)
    ensures SumFiles(fs, a + b) == Merge(SumFiles(fs, a), SumFiles(fs, b))
    decreases |b|
  {
    if b == [] {
      assert a + b == a;
      MergeEmpty(SumFiles(fs, a));
    } else {
      var init := b[..|b| - 1];
      assert (a + b)[..|a + b| - 1] == a + init;
      SumFilesConcat(fs, a, init);
      MergeAssociative(SumFiles(fs, a), SumFiles(fs, init), Contribution(fs, b[|b| - 1]));
    }
  }

  /** One file's table can be merged last instead of in its place. */
  lemma {:induction false} SumFilesMoveLast(fs: FileSystem, a: seq<FileName>, x: FileName, b: seq<FileName>)
    ensures SumFiles(fs, a + [x] + b) == Merge(SumFiles(fs, a + b), Contribution(fs, x))
  {
    var sa, sb, c := SumFiles(fs, a), SumFiles(fs, b), Contribution(fs, x);
    SumFilesConcat(fs, a + [x], b);
    SumFilesConcat(fs, a, [x]);
    SumFilesConcat(fs, a, b);
    assert [x][..0] == [];
    MergeEmpty(c);
    MergeAssociative(sa, c, sb);
    MergeCommutative(c, sb);
    MergeAssociative(sa, sb, c);
  }

  /** Taking one element out of a list takes it out of its multiset. */
  lemma RemoveAt<T>(s: seq<T>, i: nat)
    requires i < |s|
    ensures s == s[..i] + [s[i]] + s[i + 1..]
    ensures multiset(s[..i] + s[i + 1..]) == multiset(s) - multiset{s[i]}
  {
  }

  /** Merge order does not matter: merging the files' tables in any
      permutation of the list gives the same table. */
  lemma {:induction false} SumFilesPermutation(fs: FileSystem, a: seq<FileName>, b: seq<FileName>)
    requires multiset(a) == multiset(b)
    ensures SumFiles(fs, a) == SumFiles(fs, b)
    decreases |a|
  {
    if a == [] {
      assert |b| == |multiset(b)| == 0;
    } else {
      var x := a[|a| - 1];
      RemoveAt(a, |a| - 1);
      assert x in multiset(b);
      var i :| 0 <= i < |b| && b[i] == x;
      RemoveAt(b, i);
      var init, before, after := a[..|a| - 1], b[..i], b[i + 1..];
      SumFilesPermutation(fs, init, before + after);
      SumFilesMoveLast(fs, before, x, after);
    }
  }

  /** The indices of the files that have been processed, or are still
      pending, are all below `n`. */
  predicate Indices(s: set<nat>, n: nat) {
    forall i :: i in s ==> i < n
  }

  /** All the indices of a list of `n` files. */
  function AllIndices(n: nat): (s: set<nat>)
    ensures forall i: nat :: i in s <==> i < n
  {
    if n == 0 then {} else AllIndices(n - 1) + {n - 1}
  }

  /** The merge of the contributions of the files at the indices `s`, taken
      in an arbitrary order. */
  ghost function SumOver(fs: FileSystem, names: seq<FileName>, s: set<nat>): Table
    requires Indices(s, |names|)
    decreases s
  {
    if s == {} then map[]
    else
      var i :| i in s;
      Merge(SumOver(fs, names, s - {i}), Contribution(fs, names[i]))
  }

  /** Whichever file is merged last, the result is the same. */
  lemma {:induction false} SumOverAt(fs: FileSystem, names: seq<FileName>, s: set<nat>, x: nat)
    requires Indices(s, |names|)
    requires x in s
    ensures SumOver(fs, names, s) == Merge(SumOver(fs, names, s - {x}), Contribution(fs, names[x]))
    decreases s
  {
    var i :| i in s && SumOver(fs, names, s) == Merge(SumOver(fs, names, s - {i}), Contribution(fs, names[i]));
    if i != x {
      var both := s - {i} - {x};
      assert s - {i} - {x} == s - {x} - {i};
      SumOverAt(fs, names, s - {i}, x);
      SumOverAt(fs, names, s - {x}, i);
      var r, ci, cx := SumOver(fs, names, both), Contribution(fs, names[i]), Contribution(fs, names[x]);
      MergeAssociative(r, cx, ci);
      MergeCommutative(cx, ci);
      MergeAssociative(r, ci, cx);
    }
  }

  /** The files at the indices `s` are the same in a longer list. */
  lemma {:induction false} SumOverPrefix(fs: FileSystem, names: seq<FileName>, m: nat, s: set<nat>)
    requires m <= |names|
    requires Indices(s, m)
    ensures SumOver(fs, names, s) == SumOver(fs, names[..m], s)
    decreases s
  {
    if s != {} {
      var x :| x in s;
      SumOverAt(fs, names, s, x);
      SumOverAt(fs, names[..m], s, x);
      SumOverPrefix(fs, names, m, s - {x});
    }
  }

  /** Merging every file once, in an arbitrary order, gives the table of
      merging them in list order. */
  lemma {:induction false} SumOverAll(fs: FileSystem, names: seq<FileName>)
    ensures SumOver(fs, names, AllIndices(|names|)) == SumFiles(fs, names)
    decreases |names|
  {
    if names != [] {
      var k := |names| - 1;
      var all := AllIndices(|names|);
      assert all - {k} == AllIndices(k);
      SumOverAt(fs, names, all, k);
      SumOverPrefix(fs, names, k, AllIndices(k));
      SumOverAll(fs, names[..k]);
    }
  }

  /** Counting every file straight into the table, in list order, gives the
      same table as merging every file's private table into it. */
  lemma {:induction false} SequentialIsMerged(t: Table, fs: FileSystem, names: seq<FileName>)
    ensures SequentialCounts(t, fs, names) == Merge(t, SumFiles(fs, names))
    decreases |names|
  {
    if names == [] {
      MergeEmpty(t);
    } else {
      var init := names[..|names| - 1];
      var last := names[|names| - 1];
      SequentialIsMerged(t, fs, init);
      MergeAssociative(t, SumFiles(fs, init), Contribution(fs, last));
      if last in fs {
        CountTokensIsMerge(SequentialCounts(t, fs, init), Tokens(fs[last]));
      } else {
        MergeEmpty(SequentialCounts(t, fs, init));
      }
    }
  }

  /** A table built by the strategies from one without zero entries has none. */
  lemma {:induction false} SumFilesNoZeros(fs: FileSystem, names: seq<FileName>)
    ensures NoZeros(SumFiles(fs, names))
    decreases |names|
  {
    if names != [] {
      var last := names[|names| - 1];
      SumFilesNoZeros(fs, names[..|names| - 1]);
      if last in fs {
        CountTokensNoZeros(map[], Tokens(fs[last]));
      }
      MergeNoZeros(SumFiles(fs, names[..|names| - 1]), Contribution(fs, last));
    }
  }

  /** `count_files_sync`: count the files in list order, returning `false` at
      the first that fails to open. `attempted` records the files handed to
      `count_file`: none after the first failure. */
  method CountFilesSync(fs: FileSystem, names: seq<FileName>, counter: Counter)
    returns (ok: bool, ghost attempted: seq<FileName>)
    modifies counter
    ensures ok <==> AllOpen(fs, names)
    ensures counter.counts == SequentialCounts(old(counter.counts), fs, names[..FirstFailure(fs, names)])
    ensures attempted == names[..if ok then |names| else FirstFailure(fs, names) + 1]
  {
    attempted := [];
    for i := 0 to |names|
      invariant i <= FirstFailure(fs, names)
      invariant counter.counts == SequentialCounts(old(counter.counts), fs, names[..i])
      invariant attempted == names[..i]
    {
      attempted := attempted + [names[i]];
      var success := CountFile(fs, names[i], counter);
      if !success {
        return false, attempted;
      }
      assert names[..i + 1][..i] == names[..i];
    }
    ok := true;
  }

  /** One more file's table merged into the shared one. */
  lemma {:induction false} MergeOneMore(t: Table, fs: FileSystem, names: seq<FileName>, done: set<nat>, i: nat)
    requires Indices(done, |names|)
    requires i < |names| && i !in done
    ensures Merge(Merge(t, SumOver(fs, names, done)), Contribution(fs, names[i]))
            == Merge(t, SumOver(fs, names, done + {i}))
  {
    assert (done + {i}) - {i} == done;
    SumOverAt(fs, names, done + {i}, i);
    MergeAssociative(t, SumOver(fs, names, done), Contribution(fs, names[i]));
  }

  /** The tasks `count_files_async` launches, one per file, each running
      `threadsafe_count_file`. They run to completion in an order the
      scheduler picks (the arbitrary choice of `i` below); `results` holds
      the value each task's future delivers, by launch position. */
  method RunTasks(fs: FileSystem, names: seq<FileName>, counter: Counter)
    returns (results: seq<bool>)
    modifies counter
    ensures |results| == |names|
    ensures forall i :: 0 <= i < |names| ==> results[i] == (names[i] in fs)
    ensures counter.counts == Merge(old(counter.counts), SumFiles(fs, names))
  {
    results := seq(|names|, _ => false);
    var all := AllIndices(|names|);
    var pending := all;
    assert all - pending == {};
    MergeEmpty(counter.counts);
    while pending != {}
      invariant pending <= all
      invariant |results| == |names|
      invariant forall x :: x in all - pending ==> results[x] == (names[x] in fs)
      invariant counter.counts == Merge(old(counter.counts), SumOver(fs, names, all - pending))
      decreases pending
    {
      var i :| i in pending;
      var r := ThreadsafeCountFile(fs, names[i], counter);
      results := results[i := r];
      MergeOneMore(old(counter.counts), fs, names, all - pending, i);
      assert all - (pending - {i}) == (all - pending) + {i};
      pending := pending - {i};
    }
    assert all - {} == all;
    SumOverAll(fs, names);
  }

  /** `count_files_async`: launch a task per file, then await every future in
      launch order. */
  method CountFilesAsync(fs: FileSystem, names: seq<FileName>, counter: Counter)
    returns (ok: bool)
    modifies counter
    ensures ok <==> AllOpen(fs, names)
    ensures counter.counts == Merge(old(counter.counts), SumFiles(fs, names))
  {
    var results := RunTasks(fs, names, counter);
    ok := AwaitAll(results);
  }

  /** The join phase of `count_files_async`: every future is awaited, in
      launch order, and `total_result = res.get() && total_result` keeps
      going after a `false`. */
  method AwaitAll(results: seq<bool>) returns (total: bool)
    ensures total <==> forall i :: 0 <= i < |results| ==> results[i]
  {
    total := true;
    for i := 0 to |results|
      invariant total <==> forall x :: 0 <= x < i ==> results[x]
    {
      total := results[i] && total;
    }
  }

  /** `count_files_thread`: one thread per file, each running
      `threadsafe_count_file` and clearing the shared flag `total_result`
      when its file fails to open; the threads run in an order the scheduler
      picks, and all are joined before the flag is read. */
  method CountFilesThread(fs: FileSystem, names: seq<FileName>, counter: Counter)
    returns (ok: bool)
    modifies counter
    ensures ok <==> AllOpen(fs, names)
    ensures counter.counts == Merge(old(counter.counts), SumFiles(fs, names))
  {
    var totalResult := true;
    var all := AllIndices(|names|);
    var pending := all;
    assert all - pending == {};
    MergeEmpty(counter.counts);
    while pending != {}
      invariant pending <= all
      invariant totalResult <==> forall x :: x in all - pending ==> names[x] in fs
      invariant counter.counts == Merge(old(counter.counts), SumOver(fs, names, all - pending))
      decreases pending
    {
      var i :| i in pending;
      var r := ThreadsafeCountFile(fs, names[i], counter);
      if !r {
        totalResult := false;
      }
      MergeOneMore(old(counter.counts), fs, names, all - pending, i);
      assert all - (pending - {i}) == (all - pending) + {i};
      pending := pending - {i};
    }
    assert all - {} == all;
    SumOverAll(fs, names);
    ok := totalResult;
  }

  /** When every file opens, the three strategies leave identical tables when
      started from the same one. */
  lemma {:induction false} StrategiesAgree(t: Table, fs: FileSystem, names: seq<FileName>)
    requires AllOpen(fs, names)
    ensures SequentialCounts(t, fs, names[..FirstFailure(fs, names)]) == Merge(t, SumFiles(fs, names))
  {
    assert names[..|names|] == names;
    SequentialIsMerged(t, fs, names);
  }
}
