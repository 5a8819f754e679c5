/** How `get_instances` orders the rows before its loop: an optional
    shuffle, an optional cut to the first `n_samples` rows, and an optional
    stable sort by the word count of `sentence1` (`group_by_size`). */
module Ordering {
  import opened Wrappers
  import opened PySlice
  import opened PyText
  import opened StableSort
  import opened Rows

  /** `None if n_samples == -1 else n_samples`. */
  function NormaliseSamples(n: int): Option<int> {
    if n == -1 then None else Some(n)
  }

  /** The truth value of `self.n_samples`: `None` and `0` are false. */
  predicate Sampled(n: Option<int>) {
    n.Some? && n.value != 0
  }

  /** Only a count other than -1 and 0 cuts the rows: -1 means unlimited,
      and 0 is false in Python, so it means unlimited too. */
  lemma SamplingCount(n: int)
    ensures Sampled(NormaliseSamples(n)) <==> n != -1 && n != 0
    ensures Sampled(NormaliseSamples(n)) ==> NormaliseSamples(n).value == n
  {
  }

  /** The guard of the shuffle, as written:
      `shuffle and (n_samples or (not group_by_size and not n_samples))`. */
  predicate ShouldShuffle(shuffle: bool, n: Option<int>, groupBySize: bool) {
    shuffle && (Sampled(n) || (!groupBySize && !Sampled(n)))
  }

  /** The guard simplifies: rows are shuffled exactly when shuffling is asked
      for and either a sample is taken or the rows are not grouped by size. */
  lemma ShuffleCondition(shuffle: bool, n: Option<int>, groupBySize: bool)
    ensures ShouldShuffle(shuffle, n, groupBySize) <==> shuffle && (Sampled(n) || !groupBySize)
    ensures !shuffle || (groupBySize && !Sampled(n)) ==> !ShouldShuffle(shuffle, n, groupBySize)
  {
  }

  lemma PrefixMultiset<T>(r: seq<T>, s: seq<T>)
    requires r <= s
    ensures multiset(r) <= multiset(s)
  {
    assert s == r + s[|r|..];
  }

  /** The rows after the shuffle and the cut. `shuffled` is the outcome of
      `random.shuffle`: any rearrangement of `rows`. */
  function Sample(rows: seq<Row>, shuffled: seq<Row>, n: Option<int>, shuffle: bool, groupBySize: bool): (r: seq<Row>)
    requires multiset(shuffled) == multiset(rows)
    ensures multiset(r) <= multiset(rows)
    ensures !Sampled(n) ==> multiset(r) == multiset(rows)
    ensures r <= (if ShouldShuffle(shuffle, n, groupBySize) then shuffled else rows)
    ensures Sampled(n) && n.value > 0 ==> |r| == Min(n.value, |rows|)
    ensures Sampled(n) && n.value < 0 ==> |r| + Min(-n.value, |rows|) == |rows|
  {
    var s := if ShouldShuffle(shuffle, n, groupBySize) then shuffled else rows;
    assert |s| == |rows| by {
      assert |multiset(s)| == |multiset(rows)|;
    }
    if Sampled(n) then
      var cut := TakePrefix(s, n.value);
      PrefixMultiset(cut, s);
      cut
    else
      s
  }

  /** `sorted` computes `len(sentence1.split())` for every row; on a NaN cell
      (a float) `split` raises `AttributeError`. */
  datatype OrderError = SplitOnMissingSentence

  /** The `group_by_size` sort key. A missing `sentence1` never reaches the
      sort, so its key is irrelevant. */
  function SizeKey(row: Row): nat {
    if row.sentence1.Some? then WordCount(row.sentence1.value) else 0
  }

  predicate AllHaveSentence1(rows: seq<Row>) {
    forall i :: 0 <= i < |rows| ==> rows[i].sentence1.Some?
  }

  /** The ordered rows the loop runs over, or the error the sort raises. The
      sort, when taken, is ascending by word count and stable, so it only
      rearranges the sampled rows. */
  function Order(rows: seq<Row>, shuffled: seq<Row>, n: Option<int>, shuffle: bool, groupBySize: bool)
    : (r: Result<seq<Row>, OrderError>)
    requires multiset(shuffled) == multiset(rows)
    ensures r.Failure? <==> groupBySize && !AllHaveSentence1(Sample(rows, shuffled, n, shuffle, groupBySize))
    ensures r.Success? ==> multiset(r.value) == multiset(Sample(rows, shuffled, n, shuffle, groupBySize))
    ensures r.Success? && !groupBySize ==> r.value == Sample(rows, shuffled, n, shuffle, groupBySize)
    ensures r.Success? && groupBySize ==>
      && SortedBy(r.value, SizeKey)
      && forall k: nat :: WithKey(r.value, SizeKey, k) == WithKey(Sample(rows, shuffled, n, shuffle, groupBySize), SizeKey, k)
  {
    var s := Sample(rows, shuffled, n, shuffle, groupBySize);
    if !groupBySize then Success(s)
    else if !AllHaveSentence1(s) then Failure(SplitOnMissingSentence)
    else Success(SortBy(s, SizeKey))
  }
}
