/** The word-frequency table (`Counter`, a `std::map<std::string, size_t>` in
    main.cpp), the in-place updates the source makes to it, and the merge of
    a private per-file table into a shared one. */
module FrequencyTable {
  import opened Text
  import opened Tokenizer

  /** A canonical (case-folded) word. */
  type Word = Bytes

  /** The value of a table: word to occurrence count. */
  type Table = map<Word, nat>

  /** `counter[w]` read without inserting: absent words count 0. */
  function Count(t: Table, w: Word): nat {
    if w in t then t[w] else 0
  }

  /** The table has no entry with count 0. */
  predicate NoZeros(t: Table) {
    forall w :: w in t ==> t[w] >= 1
  }

  /** `++counter[w]`: `operator[]` inserts `w` with 0 when absent, then adds one. */
  function Inc(t: Table, w: Word): (r: Table)
    ensures r.Keys == t.Keys + {w}
    ensures Count(r, w) == Count(t, w) + 1
    ensures forall v :: v != w ==> Count(r, v) == Count(t, v)
  {
    t[w := Count(t, w) + 1]
  }

  /** The table after `dest[w] += src[w]` for every key `w` of `src`. */
  function Merge(dest: Table, src: Table): (r: Table)
    ensures r.Keys == dest.Keys + src.Keys
    ensures forall w :: Count(r, w) == Count(dest, w) + Count(src, w)
  {
    map w | w in dest.Keys + src.Keys :: Count(dest, w) + Count(src, w)
  }

  /** Two tables with the same keys and the same counts are equal. */
  lemma {:induction false} TableExt(a: Table, b: Table)
    requires a.Keys == b.Keys
    requires forall w :: Count(a, w) == Count(b, w)
    ensures a == b
  {
    forall w | w in a ensures a[w] == b[w] {
      assert Count(a, w) == Count(b, w);
    }
  }

  lemma MergeCommutative(a: Table, b: Table)
    ensures Merge(a, b) == Merge(b, a)
  {
  }

  lemma MergeAssociative(a: Table, b: Table, c: Table)
    ensures Merge(Merge(a, b), c) == Merge(a, Merge(b, c))
  {
  }

  /** The empty table is the identity of merge, on either side. */
  lemma MergeEmpty(a: Table)
    ensures Merge(a, map[]) == a
    ensures Merge(map[], a) == a
  {
  }

  /** Merging tables without zero entries creates none. */
  lemma MergeNoZeros(a: Table, b: Table)
    requires NoZeros(a) && NoZeros(b)
    ensures NoZeros(Merge(a, b))
  {
  }

  /** `count_words` on a token sequence: each token, case-folded, is counted
      once, from first to last. */
  function CountTokens(t: Table, tokens: seq<Bytes>): Table
    decreases |tokens|
  {
    if tokens == [] then t
    else Inc(CountTokens(t, tokens[..|tokens| - 1]), ToLower(tokens[|tokens| - 1]))
  }

  /** The table one text contributes on its own: its tokens counted into an
      empty table. */
  function WordCounts(text: Bytes): Table {
    CountTokens(map[], Tokens(text))
  }

  /** How many tokens fold to `w`. */
  function Hits(tokens: seq<Bytes>, w: Word): nat
    decreases |tokens|
  {
    if tokens == [] then 0
    else Hits(tokens[..|tokens| - 1], w) + (if ToLower(tokens[|tokens| - 1]) == w then 1 else 0)
  }

  /** No token folds to `w` exactly when `w` is hit zero times. */
  lemma {:induction false} HitsZero(tokens: seq<Bytes>, w: Word)
    ensures Hits(tokens, w) == 0 <==> forall i :: 0 <= i < |tokens| ==> ToLower(tokens[i]) != w
    decreases |tokens|
  {
    if tokens != [] {
      var init := tokens[..|tokens| - 1];
      HitsZero(init, w);
      assert forall i :: 0 <= i < |init| ==> init[i] == tokens[i];
    }
  }

  /** Every token adds exactly one to the counter of its case-folded form and
      nothing to any other counter. */
  lemma {:induction false} CountTokensCounts(t: Table, tokens: seq<Bytes>)
    ensures forall w :: Count(CountTokens(t, tokens), w) == Count(t, w) + Hits(tokens, w)
    decreases |tokens|
  {
    if tokens != [] {
      CountTokensCounts(t, tokens[..|tokens| - 1]);
    }
  }

  /** Counting adds exactly the words some token folds to as keys. */
  lemma {:induction false} CountTokensKeys(t: Table, tokens: seq<Bytes>)
    ensures forall w :: w in CountTokens(t, tokens) <==> w in t || Hits(tokens, w) > 0
    decreases |tokens|
  {
    if tokens != [] {
      CountTokensKeys(t, tokens[..|tokens| - 1]);
    }
  }

  /** Counting creates no zero-count entry. */
  lemma {:induction false} CountTokensNoZeros(t: Table, tokens: seq<Bytes>)
    requires NoZeros(t)
    ensures NoZeros(CountTokens(t, tokens))
    decreases |tokens|
  {
    if tokens != [] {
      CountTokensNoZeros(t, tokens[..|tokens| - 1]);
    }
  }

  /** Counting directly into a table (as `count_files_sync` does) gives the
      same table as counting into an empty private table and merging that in
      (as `threadsafe_count_file` does). */
  lemma {:induction false} CountTokensIsMerge(t: Table, tokens: seq<Bytes>)
    ensures CountTokens(t, tokens) == Merge(t, CountTokens(map[], tokens))
  {
    CountTokensCounts(t, tokens);
    CountTokensCounts(map[], tokens);
    CountTokensKeys(t, tokens);
    CountTokensKeys(map[], tokens);
    TableExt(CountTokens(t, tokens), Merge(t, CountTokens(map[], tokens)));
  }

  /** The sum of all counts of a table. */
  ghost function Total(t: Table): nat
    decreases |t|
  {
    if t == map[] then 0
    else
      var w :| w in t;
      t[w] + Total(t - {w})
  }

  /** The sum can be taken apart at any key. */
  lemma {:induction false} TotalAt(t: Table, w: Word)
    requires w in t
    ensures Total(t) == t[w] + Total(t - {w})
    decreases |t|
  {
    var v :| v in t && Total(t) == t[v] + Total(t - {v});
    if v != w {
      TotalAt(t - {v}, w);
      TotalAt(t - {w}, v);
      assert t - {v} - {w} == t - {w} - {v};
    }
  }

  /** One `++counter[w]` raises the sum of all counts by exactly one. */
  lemma {:induction false} TotalInc(t: Table, w: Word)
    ensures Total(Inc(t, w)) == Total(t) + 1
  {
    var r := Inc(t, w);
    TotalAt(r, w);
    if w in t {
      TotalAt(t, w);
      assert r - {w} == t - {w};
    } else {
      assert r - {w} == t;
    }
  }

  /** Counting raises the sum of all counts by the number of tokens. */
  lemma {:induction false} CountTokensTotal(t: Table, tokens: seq<Bytes>)
    ensures Total(CountTokens(t, tokens)) == Total(t) + |tokens|
    decreases |tokens|
  {
    if tokens != [] {
      var init := tokens[..|tokens| - 1];
      CountTokensTotal(t, init);
      TotalInc(CountTokens(t, init), ToLower(tokens[|tokens| - 1]));
    }
  }

  /** The `Counter` object the source passes by reference and updates in place. */
  class Counter {
    var counts: Table

    /** `Counter freq_dict;`: a fresh, empty table. */
    constructor ()
      ensures counts == map[]
    {
      counts := map[];
    }

    /** `freq_dict.clear()`. */
    method Clear()
      modifies this
      ensures counts == map[]
    {
      counts := map[];
    }

    /** `++counter[w]`. */
    method Increment(w: Word)
      modifies this
      ensures counts == Inc(old(counts), w)
      ensures NoZeros(old(counts)) ==> NoZeros(counts)
    {
      counts := counts[w := Count(counts, w) + 1];
    }

    /** `freq_dict[w] += n`. */
    method Add(w: Word, n: nat)
      modifies this
      ensures counts == Merge(old(counts), map[w := n])
      ensures NoZeros(old(counts)) && n >= 1 ==> NoZeros(counts)
    {
      TableExt(counts[w := Count(counts, w) + n], Merge(counts, map[w := n]));
      counts := counts[w := Count(counts, w) + n];
    }
  }
}
