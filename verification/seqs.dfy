/** Order-preserving selection from a sequence, and the subsequence
    relation it establishes. */
module Seqs {

  /** The elements of `s` satisfying `p`, in their order in `s`. */
  function Filter<T>(s: seq<T>, p: T -> bool): (r: seq<T>)
    ensures |r| <= |s|
    ensures forall x :: x in r ==> x in s && p(x)
  {
    if s == [] then [] else (if p(s[0]) then [s[0]] else []) + Filter(s[1..], p)
  }

  /** `r` is the subsequence of `s` at the strictly increasing positions `idx`. */
  ghost predicate Embeds<T>(r: seq<T>, s: seq<T>, idx: seq<nat>) {
    && |idx| == |r|
    && (forall k :: 0 <= k < |idx| ==> idx[k] < |s| && r[k] == s[idx[k]])
    && (forall j, k :: 0 <= j < k < |idx| ==> idx[j] < idx[k])
  }

  function Shift(idx: seq<nat>): (r: seq<nat>)
    ensures |r| == |idx| && forall k :: 0 <= k < |idx| ==> r[k] == idx[k] + 1
  {
    seq(|idx|, k requires 0 <= k < |idx| => idx[k] + 1)
  }

  /** The positions of `s` whose element satisfies `p`, ascending. */
  function FilterIndices<T>(s: seq<T>, p: T -> bool): seq<nat> {
    if s == [] then [] else (if p(s[0]) then [0] else []) + Shift(FilterIndices(s[1..], p))
  }

  lemma {:induction false} FilterAppend<T>(a: seq<T>, b: seq<T>, p: T -> bool)
    ensures Filter(a + b, p) == Filter(a, p) + Filter(b, p)
    decreases |a|
  {
    if a == [] {
      assert a + b == b;
    } else {
      assert (a + b)[1..] == a[1..] + b;
      FilterAppend(a[1..], b, p);
    }
  }

  lemma ShiftMembership(idx: seq<nat>, i: nat)
    ensures i in Shift(idx) <==> i >= 1 && i - 1 in idx
  {
    if i in Shift(idx) {
      var k :| 0 <= k < |idx| && Shift(idx)[k] == i;
    }
    if i >= 1 && i - 1 in idx {
      var k :| 0 <= k < |idx| && idx[k] == i - 1;
      assert Shift(idx)[k] == i;
    }
  }

  lemma EmbedsShift<T>(r: seq<T>, s: seq<T>, idx: seq<nat>)
    requires s != [] && Embeds(r, s[1..], idx)
    ensures Embeds(r, s, Shift(idx))
  {
  }

  lemma EmbedsHead<T>(r: seq<T>, s: seq<T>, idx: seq<nat>)
    requires s != [] && Embeds(r, s, idx)
    requires forall k :: 0 <= k < |idx| ==> idx[k] >= 1
    ensures Embeds([s[0]] + r, s, [0] + idx)
  {
  }

  /** `Filter` keeps exactly the positions where `p` holds, in ascending
      order: its result is a subsequence of `s`, and an element is dropped
      only when `p` fails for it. */
  lemma {:induction false} FilterIsSubsequence<T>(s: seq<T>, p: T -> bool)
    ensures Embeds(Filter(s, p), s, FilterIndices(s, p))
    ensures forall i :: 0 <= i < |s| ==> (i in FilterIndices(s, p) <==> p(s[i]))
    decreases |s|
  {
    if s != [] {
      var t := s[1..];
      FilterIsSubsequence(t, p);
      var idx, r := FilterIndices(t, p), Filter(t, p);
      EmbedsShift(r, s, idx);
      if p(s[0]) {
        EmbedsHead(r, s, Shift(idx));
        assert FilterIndices(s, p) == [0] + Shift(idx);
        assert Filter(s, p) == [s[0]] + r;
      } else {
        assert FilterIndices(s, p) == Shift(idx);
        assert Filter(s, p) == r;
      }
      forall i | 0 <= i < |s| ensures i in FilterIndices(s, p) <==> p(s[i]) {
        ShiftMembership(idx, i);
        if i > 0 {
          assert s[i] == t[i - 1];
        }
      }
    }
  }
}
