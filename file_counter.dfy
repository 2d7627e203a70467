/** Counting one file (main.cpp, `count_words`, `count_file` and
    `threadsafe_count_file`). Opening a file is an oracle: a file system maps
    every name that opens to its contents, and a name absent from it fails to
    open. */
module FileCounter {
  import opened Text
  import opened Tokenizer
  import opened FrequencyTable

  type FileName = string

  /** The files that open, with their contents. */
  type FileSystem = map<FileName, Bytes>

  /** What one file adds to a shared table: its word counts when it opens,
      nothing when it does not. */
  function Contribution(fs: FileSystem, name: FileName): Table {
    if name in fs then WordCounts(fs[name]) else map[]
  }

  /** `count_words(stream, counter)`: every token of the stream, case-folded,
      raises its counter by one. */
  method CountWords(text: Bytes, counter: Counter)
    modifies counter
    ensures counter.counts == CountTokens(old(counter.counts), Tokens(text))
  {
    var tokens := Tokens(text);
    for i := 0 to |tokens|
      invariant counter.counts == CountTokens(old(counter.counts), tokens[..i])
    {
      assert tokens[..i + 1][..i] == tokens[..i];
      counter.Increment(ToLower(tokens[i]));
    }
    assert tokens[..|tokens|] == tokens;
  }

  /** `count_file(filename, freq_dict)`: `false` and no change when the file
      does not open, otherwise `true` with the contents counted in. */
  method CountFile(fs: FileSystem, name: FileName, counter: Counter) returns (ok: bool)
    modifies counter
    ensures ok <==> name in fs
    ensures !ok ==> unchanged(counter)
    ensures ok ==> counter.counts == CountTokens(old(counter.counts), Tokens(fs[name]))
  {
    if name !in fs {
      return false;
    }
    CountWords(fs[name], counter);
    return true;
  }

  /** Adding one more key of `src` to `dest` extends the part of `src` merged. */
  lemma MergeOneKey(dest: Table, src: Table, pending: set<Word>, w: Word)
    requires w in pending && pending <= src.Keys
    ensures Merge(Merge(dest, src - pending), map[w := src[w]]) == Merge(dest, src - (pending - {w}))
  {
  }

  /** `threadsafe_count_file(filename, freq_dict)`: count the file into a
      private table and, only if it opened, merge that table into the shared
      one key by key. */
  method ThreadsafeCountFile(fs: FileSystem, name: FileName, dest: Counter) returns (ok: bool)
    modifies dest
    ensures ok <==> name in fs
    ensures !ok ==> unchanged(dest)
    ensures dest.counts == Merge(old(dest.counts), Contribution(fs, name))
  {
    var local := new Counter();
    ok := CountFile(fs, name, local);
    if ok {
      var src := local.counts;
      var pending := src.Keys;
      MergeEmpty(dest.counts);
      assert src - pending == map[];
      while pending != {}
        invariant pending <= src.Keys
        invariant dest.counts == Merge(old(dest.counts), src - pending)
        decreases pending
      {
        var w :| w in pending;
        dest.Add(w, src[w]);
        MergeOneKey(old(dest.counts), src, pending, w);
        pending := pending - {w};
      }
      assert src - {} == src;
    } else {
      MergeEmpty(dest.counts);
    }
  }
}
