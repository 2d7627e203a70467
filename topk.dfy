/** The selection behind `print_topk` (main.cpp): the entries of the table
    are gathered into a vector, `std::partial_sort` brings the `k` largest
    counts to the front in descending order, and those `k` are reported. The
    comparator looks at counts only, so the order among equal counts is not
    specified. */
module TopK {
  import opened FrequencyTable

  /** One `(word, count)` pair of the table. */
  datatype Entry = Entry(word: Word, count: nat)

  /** What `print_topk` writes: the line "Empty result", or one line per
      reported entry, in order. */
  datatype Report = EmptyResult | Ranked(entries: seq<Entry>)

  function Min(a: nat, b: nat): nat {
    if a <= b then a else b
  }

  /** `e` is an entry of the table. */
  predicate IsEntryOf(t: Table, e: Entry) {
    e.word in t && t[e.word] == e.count
  }

  /** No word occurs twice. */
  predicate DistinctWords(es: seq<Entry>) {
    forall i, j :: 0 <= i < j < |es| ==> es[i].word != es[j].word
  }

  /** Some entry of `es` is for `w`. */
  predicate Selected(es: seq<Entry>, w: Word) {
    exists j :: 0 <= j < |es| && es[j].word == w
  }

  /** The first `i` counts are in non-increasing order. */
  predicate SortedPrefix(s: seq<Entry>, i: nat) {
    forall x, y :: 0 <= x < y < i && y < |s| ==> s[x].count >= s[y].count
  }

  /** No count in the first `i` positions is below a count after them. */
  predicate PrefixDominates(s: seq<Entry>, i: nat) {
    forall x, y :: 0 <= x < i <= y < |s| ==> s[x].count >= s[y].count
  }

  /** `es` is a valid top-`k` of `t`: `min(k, |t|)` distinct entries of the
      table, in non-increasing count order, and no entry left out has a
      larger count than one that was selected. */
  predicate IsTopSelection(t: Table, k: nat, es: seq<Entry>) {
    && |es| == Min(k, |t|)
    && (forall i :: 0 <= i < |es| ==> IsEntryOf(t, es[i]))
    && DistinctWords(es)
    && SortedPrefix(es, |es|)
    && (forall w, i :: w in t && !Selected(es, w) && 0 <= i < |es| ==> t[w] <= es[i].count)
  }

  /** The report `print_topk` may write for table `t` and bound `k`. */
  predicate IsTopK(t: Table, k: nat, r: Report) {
    if |t| == 0 then r == EmptyResult
    else r.Ranked? && IsTopSelection(t, k, r.entries)
  }

  /** The words of `es`. */
  function WordSet(es: seq<Entry>): (s: set<Word>)
    ensures forall w :: w in s <==> Selected(es, w)
  {
    if es == [] then {}
    else
      var init := es[..|es| - 1];
      assert forall j :: 0 <= j < |init| ==> init[j] == es[j];
      WordSet(init) + {es[|es| - 1].word}
  }

  lemma {:induction false} WordSetSize(es: seq<Entry>)
    requires DistinctWords(es)
    ensures |WordSet(es)| == |es|
  {
    if es != [] {
      var init := es[..|es| - 1];
      assert forall j :: 0 <= j < |init| ==> init[j] == es[j];
      WordSetSize(init);
      assert es[|es| - 1].word !in WordSet(init);
    }
  }

  /** A subset is no larger than its superset, and one of the same size is
      the superset itself. */
  lemma {:induction false} SubsetSize<T>(a: set<T>, b: set<T>)
    requires a <= b
    ensures |a| <= |b|
    ensures |a| == |b| ==> a == b
    decreases b
  {
    if b != {} {
      var x :| x in b;
      SubsetSize(a - {x}, b - {x});
      if x in a {
        assert a == (a - {x}) + {x};
        assert b == (b - {x}) + {x};
      }
    }
  }

  /** When `k` is at least the size of the table, every entry is reported:
      there is no padding and nothing is missing. */
  lemma SmallTableFullyReported(t: Table, k: nat, es: seq<Entry>)
    requires IsTopSelection(t, k, es)
    requires k >= |t|
    ensures forall w :: w in t ==> Selected(es, w)
  {
    WordSetSize(es);
    assert WordSet(es) <= t.Keys;
    SubsetSize(WordSet(es), t.Keys);
  }

  /** Ties are broken by the sort, but the counts are not: at every rank,
      two valid top-`k` selections report the same count. */
  lemma TopCountsDetermined(t: Table, k: nat, a: seq<Entry>, b: seq<Entry>)
    requires IsTopSelection(t, k, a) && IsTopSelection(t, k, b)
    ensures |a| == |b|
    ensures forall i :: 0 <= i < |a| ==> a[i].count == b[i].count
  {
    forall i | 0 <= i < |a| ensures a[i].count == b[i].count {
      RankNotAbove(t, k, a, b, i);
      RankNotAbove(t, k, b, a, i);
    }
  }

  /** The count at rank `i` of one valid selection is at most the count at
      the same rank of another: otherwise the `i + 1` words ranked up to `i`
      in the first would all have to be ranked above `i` in the second. */
  lemma RankNotAbove(t: Table, k: nat, a: seq<Entry>, b: seq<Entry>, i: nat)
    requires IsTopSelection(t, k, a) && IsTopSelection(t, k, b)
    requires i < |a|
    ensures a[i].count <= b[i].count
  {
    if a[i].count > b[i].count {
      TopWordsRankedAbove(t, a, b, i);
      DistinctPrefix(a, i + 1);
      DistinctPrefix(b, i);
      WordSetSize(a[..i + 1]);
      WordSetSize(b[..i]);
      SubsetSize(WordSet(a[..i + 1]), WordSet(b[..i]));
    }
  }

  /** A prefix of a list of distinct words is one too. */
  lemma DistinctPrefix(es: seq<Entry>, n: nat)
    requires DistinctWords(es) && n <= |es|
    ensures DistinctWords(es[..n])
  {
  }

  /** If selection `a` has a larger count than selection `b` at rank `i`,
      the words `a` ranks at or above `i` are all ranked above `i` in `b`. */
  lemma TopWordsRankedAbove(t: Table, a: seq<Entry>, b: seq<Entry>, i: nat)
    requires i < |a| && i < |b|
    requires forall p :: 0 <= p < |a| ==> IsEntryOf(t, a[p])
    requires SortedPrefix(a, |a|)
    requires forall p :: 0 <= p < |b| ==> IsEntryOf(t, b[p])
    requires SortedPrefix(b, |b|)
    requires forall w, p :: w in t && !Selected(b, w) && 0 <= p < |b| ==> t[w] <= b[p].count
    requires a[i].count > b[i].count
    ensures WordSet(a[..i + 1]) <= WordSet(b[..i])
  {
    var top, above := a[..i + 1], b[..i];
    forall w | w in WordSet(top) ensures w in WordSet(above) {
      var x :| 0 <= x < |top| && top[x].word == w;
      assert top[x] == a[x];
      RankedAboveInOther(t, a, b, i, x);
      var y :| 0 <= y < i && b[y].word == w;
      assert above[y].word == w;
    }
  }

  /** If selection `a` has a larger count than selection `b` at rank `i`,
      each word `a` ranks at or above `i` is ranked strictly above `i` in `b`. */
  lemma RankedAboveInOther(t: Table, a: seq<Entry>, b: seq<Entry>, i: nat, x: nat)
    requires x <= i < |a| && i < |b|
    requires forall p :: 0 <= p < |a| ==> IsEntryOf(t, a[p])
    requires SortedPrefix(a, |a|)
    requires forall p :: 0 <= p < |b| ==> IsEntryOf(t, b[p])
    requires SortedPrefix(b, |b|)
    requires forall w, p :: w in t && !Selected(b, w) && 0 <= p < |b| ==> t[w] <= b[p].count
    requires a[i].count > b[i].count
    ensures exists y :: 0 <= y < i && b[y].word == a[x].word
  {
  }

  /** An element that occurs at two positions occurs twice in the multiset. */
  lemma {:induction false} TwiceInMultiset<T>(s: seq<T>, i: nat, j: nat)
    requires i < j < |s| && s[i] == s[j]
    ensures multiset(s)[s[i]] >= 2
  {
    assert s == s[..j] + [s[j]] + s[j + 1..];
    assert s[i] in s[..j];
    assert multiset(s) == multiset(s[..j]) + multiset{s[j]} + multiset(s[j + 1..]);
  }

  /** In a sequence without repeated words no entry occurs twice. */
  lemma {:induction false} DistinctOnce(es: seq<Entry>, e: Entry)
    requires DistinctWords(es)
    ensures multiset(es)[e] <= 1
    decreases |es|
  {
    if es != [] {
      var init, last := es[..|es| - 1], es[|es| - 1];
      assert es == init + [last];
      assert forall j :: 0 <= j < |init| ==> init[j] == es[j];
      DistinctOnce(init, e);
      if e == last {
        assert e !in init;
      }
    }
  }

  /** Rearranging entries of a table keeps their words distinct. */
  lemma DistinctWordsPermutation(t: Table, a: seq<Entry>, b: seq<Entry>)
    requires multiset(a) == multiset(b)
    requires forall i :: 0 <= i < |a| ==> IsEntryOf(t, a[i])
    requires DistinctWords(b)
    ensures DistinctWords(a)
  {
    forall i, j | 0 <= i < j < |a| ensures a[i].word != a[j].word {
      if a[i].word == a[j].word {
        assert a[i] == a[j];
        TwiceInMultiset(a, i, j);
        DistinctOnce(b, a[i]);
      }
    }
  }

  /** An index of a largest count at or after `lo`. */
  method MaxFrom(a: array<Entry>, lo: nat) returns (m: nat)
    requires lo < a.Length
    ensures lo <= m < a.Length
    ensures forall j :: lo <= j < a.Length ==> a[j].count <= a[m].count
  {
    m := lo;
    for j := lo + 1 to a.Length
      invariant lo <= m < a.Length
      invariant forall x :: lo <= x < j ==> a[x].count <= a[m].count
    {
      if a[j].count > a[m].count {
        m := j;
      }
    }
  }

  /** Swapping a largest remaining count into position `i` extends the
      sorted, dominating prefix by one and only rearranges the elements. */
  lemma SelectStep(s: seq<Entry>, i: nat, m: nat)
    requires i <= m < |s|
    requires SortedPrefix(s, i) && PrefixDominates(s, i)
    requires forall j :: i <= j < |s| ==> s[j].count <= s[m].count
    ensures multiset(s[i := s[m]][m := s[i]]) == multiset(s)
    ensures SortedPrefix(s[i := s[m]][m := s[i]], i + 1)
    ensures PrefixDominates(s[i := s[m]][m := s[i]], i + 1)
  {
  }

  /** `std::partial_sort(begin, begin + k, end, greater-count)`: a
      rearrangement of the array whose first `k` elements are the largest
      counts, in descending order. */
  method PartialSort(a: array<Entry>, k: nat)
    requires k <= a.Length
    modifies a
    ensures multiset(a[..]) == old(multiset(a[..]))
    ensures SortedPrefix(a[..], k)
    ensures PrefixDominates(a[..], k)
  {
    for i := 0 to k
      invariant multiset(a[..]) == old(multiset(a[..]))
      invariant SortedPrefix(a[..], i)
      invariant PrefixDominates(a[..], i)
    {
      var m := MaxFrom(a, i);
      SelectStep(a[..], i, m);
      a[i], a[m] := a[m], a[i];
    }
  }

  /** Rearranging entries of a table gives entries of the table. */
  lemma EntriesPermutation(t: Table, a: seq<Entry>, b: seq<Entry>)
    requires multiset(a) == multiset(b)
    requires forall j :: 0 <= j < |b| ==> IsEntryOf(t, b[j])
    ensures forall i :: 0 <= i < |a| ==> IsEntryOf(t, a[i])
  {
    forall i | 0 <= i < |a| ensures IsEntryOf(t, a[i]) {
      assert a[i] in multiset(b);
    }
  }

  /** Every entry of the table that is not among the first `n` of a
      rearrangement of all its entries sits behind them, so a dominating
      prefix leaves out nothing larger. */
  lemma PrefixHoldsLargest(t: Table, gathered: seq<Entry>, sorted: seq<Entry>, n: nat)
    requires forall j :: 0 <= j < |gathered| ==> IsEntryOf(t, gathered[j])
    requires forall w :: w in t ==> Selected(gathered, w)
    requires multiset(sorted) == multiset(gathered)
    requires n <= |sorted|
    requires PrefixDominates(sorted, n)
    ensures forall w, i :: w in t && !Selected(sorted[..n], w) && 0 <= i < n ==> t[w] <= sorted[i].count
  {
    forall w, i | w in t && !Selected(sorted[..n], w) && 0 <= i < n ensures t[w] <= sorted[i].count {
      var j :| 0 <= j < |gathered| && gathered[j].word == w;
      assert gathered[j] in multiset(sorted);
      var m :| 0 <= m < |sorted| && sorted[m] == gathered[j];
      assert forall x :: 0 <= x < n ==> sorted[..n][x].word != w;
      assert n <= m;
    }
  }

  /** What `partial_sort` leaves at the front of the gathered entries is a
      valid top-`k`. */
  lemma SortedSelection(t: Table, k: nat, gathered: seq<Entry>, sorted: seq<Entry>)
    requires |gathered| == |t|
    requires forall j :: 0 <= j < |gathered| ==> IsEntryOf(t, gathered[j])
    requires DistinctWords(gathered)
    requires forall w :: w in t ==> Selected(gathered, w)
    requires multiset(sorted) == multiset(gathered)
    requires Min(k, |t|) <= |sorted|
    requires SortedPrefix(sorted, Min(k, |t|)) && PrefixDominates(sorted, Min(k, |t|))
    ensures IsTopSelection(t, k, sorted[..Min(k, |t|)])
  {
    var n := Min(k, |t|);
    EntriesPermutation(t, sorted, gathered);
    DistinctWordsPermutation(t, sorted, gathered);
    PrefixHoldsLargest(t, gathered, sorted, n);
    assert forall i :: 0 <= i < n ==> sorted[..n][i] == sorted[i];
  }

  /** While the entries are gathered: `ws` holds one entry for every word
      already visited, and the words still `pending` are the rest. */
  predicate Gathering(counts: Table, ws: seq<Entry>, pending: set<Word>) {
    && pending <= counts.Keys
    && |ws| + |pending| == |counts|
    && (forall j :: 0 <= j < |ws| ==> IsEntryOf(counts, ws[j]) && ws[j].word !in pending)
    && DistinctWords(ws)
    && (forall w :: w in counts && w !in pending ==> Selected(ws, w))
  }

  /** Visiting one more pending word keeps the gathering invariant. */
  lemma GatherStep(counts: Table, ws: seq<Entry>, pending: set<Word>, w: Word)
    requires Gathering(counts, ws, pending)
    requires w in pending
    ensures Gathering(counts, ws + [Entry(w, counts[w])], pending - {w})
  {
    var next := ws + [Entry(w, counts[w])];
    assert forall j :: 0 <= j < |ws| ==> next[j] == ws[j];
    forall v | v in counts && v !in pending - {w} ensures Selected(next, v) {
      if v != w {
        var j :| 0 <= j < |ws| && ws[j].word == v;
        assert next[j].word == v;
      } else {
        assert next[|ws|].word == v;
      }
    }
  }

  /** The loop of `print_topk` that pushes an iterator to every entry of the
      table into a fresh vector, one position per entry. */
  method Gather(counts: Table) returns (a: array<Entry>)
    ensures fresh(a)
    ensures a.Length == |counts|
    ensures forall j :: 0 <= j < a.Length ==> IsEntryOf(counts, a[j])
    ensures DistinctWords(a[..])
    ensures forall w :: w in counts ==> Selected(a[..], w)
  {
    var ws: seq<Entry> := [];
    var pending := counts.Keys;
    while pending != {}
      invariant Gathering(counts, ws, pending)
      decreases pending
    {
      var w :| w in pending;
      GatherStep(counts, ws, pending, w);
      ws := ws + [Entry(w, counts[w])];
      pending := pending - {w};
    }
    a := new Entry[|ws|](i requires 0 <= i < |ws| => ws[i]);
    assert a[..] == ws;
  }

  /** `print_topk(stream, counter, k)` without the formatting: "Empty result"
      for an empty table, otherwise the first `min(k, size)` entries after a
      partial sort by descending count. */
  method TopK(counts: Table, k: nat) returns (r: Report)
    ensures IsTopK(counts, k, r)
  {
    if |counts| == 0 {
      return EmptyResult;
    }
    var n := Min(k, |counts|);
    var words := Gather(counts);
    ghost var gathered := words[..];
    PartialSort(words, n);
    SortedSelection(counts, k, gathered, words[..]);
    r := Ranked(words[..n]);
  }
}
