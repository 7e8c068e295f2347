/**
 Ascending sort of integer sequences and the rank facts about the element
 found at a fixed index of the sorted result (an "order statistic").

 Python's `sorted(...)` on a list of ints is modelled by `Sort`; any
 correct sort yields the same list, so the choice of insertion sort is an
 implementation detail of the model.
 */
module Sorting {

  ghost predicate Sorted(s: seq<int>) {
    forall i, j :: 0 <= i < j < |s| ==> s[i] <= s[j]
  }

  /** Inserts `x` into the sorted sequence `s`, keeping it sorted. */
  function Insert(x: int, s: seq<int>): (r: seq<int>)
    requires Sorted(s)
    ensures Sorted(r)
    ensures multiset(r) == multiset(s) + multiset{x}
    ensures |r| == |s| + 1
    ensures r[0] == if |s| == 0 || x <= s[0] then x else s[0]
  {
    if |s| == 0 then [x]
    else if x <= s[0] then [x] + s
    else
      var tail := Insert(x, s[1..]);
      assert s == [s[0]] + s[1..];
      assert s[0] <= tail[0];
      var r := [s[0]] + tail;
      assert forall j :: 0 < j < |r| ==> r[0] <= r[1] <= r[j];
      r
  }

  /** Python's `sorted(values)` for a list of ints: an ascending permutation. */
  function Sort(v: seq<int>): (r: seq<int>)
    ensures Sorted(r)
    ensures multiset(r) == multiset(v)
    ensures |r| == |v|
  {
    if |v| == 0 then []
    else
      assert v == [v[0]] + v[1..];
      Insert(v[0], Sort(v[1..]))
  }

  /** Number of elements of `s` that are at most `m`. */
  function CountAtMost(s: seq<int>, m: int): nat {
    if |s| == 0 then 0
    else (if s[0] <= m then 1 else 0) + CountAtMost(s[1..], m)
  }

  /** Number of elements of `s` that are at least `m`. */
  function CountAtLeast(s: seq<int>, m: int): nat {
    if |s| == 0 then 0
    else (if s[0] >= m then 1 else 0) + CountAtLeast(s[1..], m)
  }

  lemma {:induction false} InsertCounts(x: int, s: seq<int>, m: int)
    requires Sorted(s)
    ensures CountAtMost(Insert(x, s), m) == CountAtMost(s, m) + (if x <= m then 1 else 0)
    ensures CountAtLeast(Insert(x, s), m) == CountAtLeast(s, m) + (if x >= m then 1 else 0)
  {
    if |s| == 0 {
    } else if x <= s[0] {
      assert ([x] + s)[1..] == s;
    } else {
      var r := Insert(x, s);
      InsertCounts(x, s[1..], m);
      assert r[0] == s[0] && r[1..] == Insert(x, s[1..]);
    }
  }

  /** Sorting does not change how many elements lie on either side of a bound. */
  lemma {:induction false} SortKeepsCounts(v: seq<int>, m: int)
    ensures CountAtMost(Sort(v), m) == CountAtMost(v, m)
    ensures CountAtLeast(Sort(v), m) == CountAtLeast(v, m)
  {
    if |v| > 0 {
      SortKeepsCounts(v[1..], m);
      InsertCounts(v[0], Sort(v[1..]), m);
    }
  }

  lemma {:induction false} PrefixAtMost(s: seq<int>, m: int, k: nat)
    requires k < |s|
    requires forall i :: 0 <= i <= k ==> s[i] <= m
    ensures CountAtMost(s, m) >= k + 1
  {
    if k > 0 {
      PrefixAtMost(s[1..], m, k - 1);
    }
  }

  lemma {:induction false} SuffixAtLeast(s: seq<int>, m: int, k: nat)
    requires k <= |s|
    requires forall i :: k <= i < |s| ==> s[i] >= m
    ensures CountAtLeast(s, m) >= |s| - k
  {
    if |s| > 0 {
      SuffixAtLeast(s[1..], m, if k > 0 then k - 1 else 0);
    }
  }

  /**
   The element at index `k` of `Sort(v)` is one of the values of `v`, at
   least `k + 1` values of `v` are at most it and at least `|v| - k` are at
   least it.
   */
  lemma OrderStatistic(v: seq<int>, k: nat)
    requires k < |v|
    ensures Sort(v)[k] in multiset(v)
    ensures CountAtMost(v, Sort(v)[k]) >= k + 1
    ensures CountAtLeast(v, Sort(v)[k]) >= |v| - k
  {
    var s := Sort(v);
    assert s[k] in multiset(s);
    assert forall i :: 0 <= i <= k ==> s[i] <= s[k];
    PrefixAtMost(s, s[k], k);
    assert forall i :: k <= i < |s| ==> s[i] >= s[k];
    SuffixAtLeast(s, s[k], k);
    SortKeepsCounts(v, s[k]);
  }

  /** Five values, index 2: the element is a median of the five. */
  lemma MiddleOfFive(v: seq<int>)
    requires |v| == 5
    ensures Sort(v)[2] in multiset(v)
    ensures CountAtMost(v, Sort(v)[2]) >= 3
    ensures CountAtLeast(v, Sort(v)[2]) >= 3
  {
    OrderStatistic(v, 2);
  }

  /** The first element of a non-empty ascending sequence is its least value. */
  lemma HeadIsLeast(a: seq<int>, x: int)
    requires Sorted(a) && x in multiset(a)
    ensures a[0] <= x
  {
    var i :| 0 <= i < |a| && a[i] == x;
    assert a[0] <= a[i];
  }

  lemma TailMultiset(a: seq<int>)
    requires |a| > 0
    ensures multiset(a[1..]) == multiset(a) - multiset{a[0]}
  {
    assert a == [a[0]] + a[1..];
  }

  lemma SameLength(a: seq<int>, b: seq<int>)
    requires multiset(a) == multiset(b)
    ensures |a| == |b|
  {
    assert |a| == |multiset(a)| == |multiset(b)| == |b|;
  }

  lemma HeadsAndTails(a: seq<int>, b: seq<int>)
    requires Sorted(a) && Sorted(b)
    requires multiset(a) == multiset(b)
    requires |a| > 0 && |b| > 0
    ensures a[0] == b[0]
    ensures Sorted(a[1..]) && Sorted(b[1..])
    ensures multiset(a[1..]) == multiset(b[1..])
  {
    assert a[0] in multiset(b) && b[0] in multiset(a);
    HeadIsLeast(a, b[0]);
    HeadIsLeast(b, a[0]);
    TailMultiset(a);
    TailMultiset(b);
  }

  /** Two ascending sequences holding the same values are equal. */
  lemma {:induction false} SortedPermutationsEqual(a: seq<int>, b: seq<int>)
    requires Sorted(a) && Sorted(b)
    requires multiset(a) == multiset(b)
    ensures a == b
  {
    SameLength(a, b);
    if |a| > 0 && |b| > 0 {
      HeadsAndTails(a, b);
      SortedPermutationsEqual(a[1..], b[1..]);
      assert a == [a[0]] + a[1..] && b == [b[0]] + b[1..];
    }
  }

  /** `Sort(v)` is the only ascending rearrangement of `v`. */
  lemma SortIsUnique(v: seq<int>, s: seq<int>)
    requires Sorted(s) && multiset(s) == multiset(v)
    ensures Sort(v) == s
  {
    SortedPermutationsEqual(Sort(v), s);
  }
}
