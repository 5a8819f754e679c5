/** Python's `sorted(xs, key=f)` for a key with natural-number values: an
    ascending sort that is stable, i.e. elements with equal keys keep their
    relative order. Modelled as insertion sort. */
module StableSort {

  /** Ascending by `key`. */
  predicate SortedBy<T>(s: seq<T>, key: T -> nat) {
    forall i, j :: 0 <= i < j < |s| ==> key(s[i]) <= key(s[j])
  }

  /** Every element of `s` has a key of at least `b`. */
  predicate KeysAtLeast<T>(s: seq<T>, key: T -> nat, b: nat) {
    forall i :: 0 <= i < |s| ==> b <= key(s[i])
  }

  /** The elements of `s` whose key is `k`, in their order in `s`. */
  function WithKey<T>(s: seq<T>, key: T -> nat, k: nat): seq<T> {
    if s == [] then []
    else (if key(s[0]) == k then [s[0]] else []) + WithKey(s[1..], key, k)
  }

  /** Places `x` in front of the first element whose key is not smaller. */
  function Insert<T>(x: T, s: seq<T>, key: T -> nat): seq<T> {
    if s == [] then [x]
    else if key(x) <= key(s[0]) then [x] + s
    else [s[0]] + Insert(x, s[1..], key)
  }

  /** Insertion adds `x` and loses nothing. */
  lemma {:induction false} InsertMultiset<T>(x: T, s: seq<T>, key: T -> nat)
    ensures multiset(Insert(x, s, key)) == multiset(s) + multiset{x}
    decreases |s|
  {
    if s != [] && key(x) > key(s[0]) {
      InsertMultiset(x, s[1..], key);
      assert s == [s[0]] + s[1..];
    }
  }

  lemma SortedCons<T>(x: T, s: seq<T>, key: T -> nat)
    requires SortedBy(s, key) && KeysAtLeast(s, key, key(x))
    ensures SortedBy([x] + s, key)
  {
  }

  lemma SortedTail<T>(s: seq<T>, key: T -> nat)
    requires SortedBy(s, key) && s != []
    ensures SortedBy(s[1..], key) && KeysAtLeast(s[1..], key, key(s[0]))
  {
  }

  lemma {:induction false} InsertKeysAtLeast<T>(x: T, s: seq<T>, key: T -> nat, b: nat)
    requires KeysAtLeast(s, key, b) && b <= key(x)
    ensures KeysAtLeast(Insert(x, s, key), key, b)
  {
    var r := Insert(x, s, key);
    InsertMultiset(x, s, key);
    forall i | 0 <= i < |r| ensures b <= key(r[i]) {
      assert r[i] in multiset(r);
      assert r[i] == x || r[i] in multiset(s);
    }
  }

  /** Inserting into a sorted list keeps it sorted. */
  lemma {:induction false} InsertSorted<T>(x: T, s: seq<T>, key: T -> nat)
    requires SortedBy(s, key)
    ensures SortedBy(Insert(x, s, key), key)
    decreases |s|
  {
    if s == [] {
    } else if key(x) <= key(s[0]) {
      SortedCons(x, s, key);
    } else {
      SortedTail(s, key);
      InsertSorted(x, s[1..], key);
      InsertKeysAtLeast(x, s[1..], key, key(s[0]));
      SortedCons(s[0], Insert(x, s[1..], key), key);
    }
  }

  /** Insertion puts `x` ahead of every element with the same key, as the
      stable sort needs when `x` came first in the input. */
  lemma {:induction false} InsertWithKey<T>(x: T, s: seq<T>, key: T -> nat, k: nat)
    ensures WithKey(Insert(x, s, key), key, k) == (if key(x) == k then [x] else []) + WithKey(s, key, k)
    decreases |s|
  {
    if s == [] || key(x) <= key(s[0]) {
      assert Insert(x, s, key) == [x] + s;
      WithKeyHead([x] + s, key, k);
      assert ([x] + s)[1..] == s;
    } else {
      InsertWithKey(x, s[1..], key, k);
      InsertBehindHead(x, s, key, k);
    }
  }

  lemma InsertBehindHead<T>(x: T, s: seq<T>, key: T -> nat, k: nat)
    requires s != [] && key(x) > key(s[0])
    requires WithKey(Insert(x, s[1..], key), key, k) == (if key(x) == k then [x] else []) + WithKey(s[1..], key, k)
    ensures WithKey(Insert(x, s, key), key, k) == (if key(x) == k then [x] else []) + WithKey(s, key, k)
  {
    var rest := Insert(x, s[1..], key);
    var r := [s[0]] + rest;
    assert Insert(x, s, key) == r;
    assert r[1..] == rest;
    if key(s[0]) == k {
      assert WithKey(r, key, k) == [s[0]] + WithKey(rest, key, k);
      assert WithKey(s, key, k) == [s[0]] + WithKey(s[1..], key, k);
    } else {
      assert WithKey(r, key, k) == WithKey(rest, key, k);
      assert WithKey(s, key, k) == WithKey(s[1..], key, k);
    }
  }

  /** `sorted(s, key=key)`: ascending, a permutation of `s`, and stable. */
  function SortBy<T>(s: seq<T>, key: T -> nat): (r: seq<T>)
    ensures SortedBy(r, key)
    ensures multiset(r) == multiset(s)
    ensures forall k: nat :: WithKey(r, key, k) == WithKey(s, key, k)
  {
    if s == [] then []
    else
      var rest := SortBy(s[1..], key);
      SortByStep(s, rest, key);
      Insert(s[0], rest, key)
  }

  lemma SortByStep<T>(s: seq<T>, rest: seq<T>, key: T -> nat)
    requires s != []
    requires SortedBy(rest, key) && multiset(rest) == multiset(s[1..])
    requires forall k: nat :: WithKey(rest, key, k) == WithKey(s[1..], key, k)
    ensures SortedBy(Insert(s[0], rest, key), key)
    ensures multiset(Insert(s[0], rest, key)) == multiset(s)
    ensures forall k: nat :: WithKey(Insert(s[0], rest, key), key, k) == WithKey(s, key, k)
  {
    assert s == [s[0]] + s[1..];
    InsertSorted(s[0], rest, key);
    InsertMultiset(s[0], rest, key);
    forall k: nat ensures WithKey(Insert(s[0], rest, key), key, k) == WithKey(s, key, k) {
      InsertWithKey(s[0], rest, key, k);
      WithKeyHead(s, key, k);
    }
  }

  lemma WithKeyHead<T>(s: seq<T>, key: T -> nat, k: nat)
    requires s != []
    ensures WithKey(s, key, k) == (if key(s[0]) == k then [s[0]] else []) + WithKey(s[1..], key, k)
  {
  }

  /** In a sorted list the first element has the least key, so any element
      with a smaller key is absent. */
  lemma {:induction false} SortedHeadLeast<T>(s: seq<T>, key: T -> nat, k: nat)
    requires SortedBy(s, key) && s != [] && k < key(s[0])
    ensures WithKey(s, key, k) == []
  {
    forall x | x in s ensures key(x) != k {
      var j :| 0 <= j < |s| && s[j] == x;
      assert key(s[0]) <= key(s[j]);
    }
    WithKeyAbsent(s, key, k);
  }

  lemma {:induction false} WithKeyAbsent<T>(s: seq<T>, key: T -> nat, k: nat)
    requires forall x :: x in s ==> key(x) != k
    ensures WithKey(s, key, k) == []
    decreases |s|
  {
    if s != [] {
      WithKeyAbsent(s[1..], key, k);
    }
  }

  lemma {:induction false} SortedSameGroupsEqual<T>(r: seq<T>, q: seq<T>, key: T -> nat)
    requires SortedBy(r, key) && SortedBy(q, key)
    requires forall k: nat :: WithKey(r, key, k) == WithKey(q, key, k)
    ensures r == q
    decreases |r| + |q|
  {
    if r == [] || q == [] {
      if r != [] {
        WithKeyHead(r, key, key(r[0]));
      }
      if q != [] {
        WithKeyHead(q, key, key(q[0]));
      }
    } else {
      var a, b := key(r[0]), key(q[0]);
      WithKeyHead(r, key, a);
      WithKeyHead(q, key, b);
      if a < b {
        SortedHeadLeast(q, key, a);
        assert false;
      } else if b < a {
        SortedHeadLeast(r, key, b);
        assert false;
      }
      assert r[0] == WithKey(r, key, a)[0] == WithKey(q, key, a)[0] == q[0];
      forall k: nat ensures WithKey(r[1..], key, k) == WithKey(q[1..], key, k) {
        WithKeyHead(r, key, k);
        WithKeyHead(q, key, k);
        var head := if a == k then [r[0]] else [];
        assert WithKey(r[1..], key, k) == WithKey(r, key, k)[|head|..];
        assert WithKey(q[1..], key, k) == WithKey(q, key, k)[|head|..];
      }
      SortedTail(r, key);
      SortedTail(q, key);
      SortedSameGroupsEqual(r[1..], q[1..], key);
      assert r == [r[0]] + r[1..];
      assert q == [q[0]] + q[1..];
    }
  }

  /** Sortedness and stability pin the result down: any list that is sorted
      and agrees with `s` key by key is `SortBy(s, key)`. */
  lemma SortByUnique<T>(s: seq<T>, r: seq<T>, key: T -> nat)
    requires SortedBy(r, key)
    requires forall k: nat :: WithKey(r, key, k) == WithKey(s, key, k)
    ensures r == SortBy(s, key)
  {
    SortedSameGroupsEqual(r, SortBy(s, key), key);
  }
}
