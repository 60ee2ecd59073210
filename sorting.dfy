/** The orderings the source asks of Python's sorted() and list.sort():
    dates newest first (with and without de-duplication through set()),
    dates oldest first, and a stable descending sort by a percentage. */
module Sorting {
  import opened Common

  predicate Descending(s: seq<int>)
  {
    forall i, j :: 0 <= i < j < |s| ==> s[i] >= s[j]
  }

  predicate StrictlyDescending(s: seq<int>)
  {
    forall i, j :: 0 <= i < j < |s| ==> s[i] > s[j]
  }

  predicate StrictlyAscending(s: seq<int>)
  {
    forall i, j :: 0 <= i < j < |s| ==> s[i] < s[j]
  }

  function InsertDesc(x: int, s: seq<int>): (r: seq<int>)
    requires Descending(s)
    ensures Descending(r)
    ensures multiset(r) == multiset(s) + multiset{x}
    ensures |r| == |s| + 1
    ensures forall y :: y in r ==> y == x || y in s
  {
    if s == [] || x >= s[0] then [x] + s
    else
      assert s == [s[0]] + s[1..];
      var t := InsertDesc(x, s[1..]);
      assert forall j :: 0 <= j < |t| ==> t[j] <= s[0] by {
        forall j | 0 <= j < |t| ensures t[j] <= s[0] {
          assert t[j] in t;
        }
      }
      [s[0]] + t
  }

  /** sorted(s, reverse=True): the same entries, repeats kept, newest first. */
  function SortDesc(s: seq<int>): (r: seq<int>)
    ensures Descending(r)
    ensures multiset(r) == multiset(s)
    ensures |r| == |s|
  {
    if s == [] then []
    else
      assert s == [s[0]] + s[1..];
      InsertDesc(s[0], SortDesc(s[1..]))
  }

  function InsertDistinctDesc(x: int, s: seq<int>): (r: seq<int>)
    requires StrictlyDescending(s)
    ensures StrictlyDescending(r)
    ensures forall y :: y in r <==> y == x || y in s
    ensures |r| > 0 && (r[0] == x || (s != [] && r[0] == s[0]))
  {
    if s == [] || x > s[0] then [x] + s
    else if x == s[0] then s
    else
      assert s == [s[0]] + s[1..];
      [s[0]] + InsertDistinctDesc(x, s[1..])
  }

  /** sorted(set(s), reverse=True): each distinct entry once, newest first. */
  function SortDistinctDesc(s: seq<int>): (r: seq<int>)
    ensures StrictlyDescending(r)
    ensures forall y :: y in r <==> y in s
  {
    if s == [] then []
    else
      assert s == [s[0]] + s[1..];
      InsertDistinctDesc(s[0], SortDistinctDesc(s[1..]))
  }

  function InsertDistinctAsc(x: int, s: seq<int>): (r: seq<int>)
    requires StrictlyAscending(s)
    ensures StrictlyAscending(r)
    ensures forall y :: y in r <==> y == x || y in s
    ensures |r| > 0 && (r[0] == x || (s != [] && r[0] == s[0]))
  {
    if s == [] || x < s[0] then [x] + s
    else if x == s[0] then s
    else
      assert s == [s[0]] + s[1..];
      [s[0]] + InsertDistinctAsc(x, s[1..])
  }

  /** sorted(set(s)): each distinct entry once, oldest first. */
  function SortDistinctAsc(s: seq<int>): (r: seq<int>)
    ensures StrictlyAscending(r)
    ensures forall y :: y in r <==> y in s
  {
    if s == [] then []
    else
      assert s == [s[0]] + s[1..];
      InsertDistinctAsc(s[0], SortDistinctAsc(s[1..]))
  }

  /** Neighbouring entries are in descending order of key. */
  predicate SortedByRatio<T>(s: seq<T>, key: T -> Ratio)
  {
    forall i :: 0 <= i < |s| - 1 ==> RatioGe(key(s[i]), key(s[i + 1]))
  }

  /** Inserts x after every entry whose key is at least x's. */
  function InsertByRatio<T>(x: T, s: seq<T>, key: T -> Ratio): (r: seq<T>)
    requires SortedByRatio(s, key)
    ensures SortedByRatio(r, key)
    ensures multiset(r) == multiset(s) + multiset{x}
    ensures |r| == |s| + 1 && (r[0] == x || (s != [] && r[0] == s[0]))
  {
    if s == [] then [x]
    else if RatioGe(key(s[0]), key(x)) then
      assert s == [s[0]] + s[1..];
      [s[0]] + InsertByRatio(x, s[1..], key)
    else [x] + s
  }

  /** list.sort(key=..., reverse=True) on a ratio key: a permutation of s in
      descending order of key, built by stable insertion in list order. */
  function SortByRatioDesc<T>(s: seq<T>, key: T -> Ratio): (r: seq<T>)
    ensures SortedByRatio(r, key)
    ensures multiset(r) == multiset(s)
    ensures |r| == |s|
  {
    if s == [] then []
    else
      assert s == s[..|s| - 1] + [s[|s| - 1]];
      InsertByRatio(s[|s| - 1], SortByRatioDesc(s[..|s| - 1], key), key)
  }

  /** Neighbourwise order gives order between any two positions. */
  lemma {:induction false} SortedByRatioGlobal<T>(s: seq<T>, key: T -> Ratio, i: int, j: int)
    requires SortedByRatio(s, key) && 0 <= i <= j < |s|
    ensures RatioGe(key(s[i]), key(s[j]))
    decreases j - i
  {
    if i < j {
      SortedByRatioGlobal(s, key, i + 1, j);
      RatioGeTrans(key(s[i]), key(s[i + 1]), key(s[j]));
    }
  }

  /** The first k entries of a sorted list are the k largest: each ranks at
      least as high as every entry left out. */
  lemma TopEntries<T>(s: seq<T>, key: T -> Ratio, k: nat)
    requires SortedByRatio(s, key) && k <= |s|
    ensures forall x, y :: x in s[..k] && y in s[k..] ==> RatioGe(key(x), key(y))
  {
    forall x, y | x in s[..k] && y in s[k..] ensures RatioGe(key(x), key(y)) {
      var i :| 0 <= i < k && s[..k][i] == x;
      var j :| 0 <= j < |s| - k && s[k..][j] == y;
      SortedByRatioGlobal(s, key, i, k + j);
    }
  }

  /** The first k entries of the sorted list: in order, drawn from s, and
      ranking at least as high as every entry of s left out. */
  lemma TopOfSorted<T>(s: seq<T>, key: T -> Ratio, k: nat)
    ensures var sorted := SortByRatioDesc(s, key);
      var top := sorted[..if |sorted| < k then |sorted| else k];
      |top| == (if |s| < k then |s| else k) && SortedByRatio(top, key)
      && multiset(top) <= multiset(s)
      && forall x, y :: x in top && y in s && y !in top ==> RatioGe(key(x), key(y))
  {
    var sorted := SortByRatioDesc(s, key);
    var n := if |sorted| < k then |sorted| else k;
    var top := sorted[..n];
    TopEntries(sorted, key, n);
    assert sorted == top + sorted[n..];
    assert multiset(sorted) == multiset(top) + multiset(sorted[n..]);
    forall x, y | x in top && y in s && y !in top ensures RatioGe(key(x), key(y)) {
      assert y in multiset(s);
      assert y in multiset(sorted);
      assert y in sorted;
      assert y in sorted[n..];
    }
  }

  /** The last k entries of the sorted list: in order, drawn from s, and
      ranking at most as high as every entry of s left out. */
  lemma BottomOfSorted<T>(s: seq<T>, key: T -> Ratio, k: nat)
    ensures var sorted := SortByRatioDesc(s, key);
      var bottom := sorted[|sorted| - (if |sorted| < k then |sorted| else k)..];
      |bottom| == (if |s| < k then |s| else k) && SortedByRatio(bottom, key)
      && multiset(bottom) <= multiset(s)
      && forall x, y :: x in bottom && y in s && y !in bottom ==> RatioGe(key(y), key(x))
  {
    var sorted := SortByRatioDesc(s, key);
    var m := |sorted| - (if |sorted| < k then |sorted| else k);
    var bottom := sorted[m..];
    assert sorted == sorted[..m] + bottom;
    assert multiset(sorted) == multiset(sorted[..m]) + multiset(bottom);
    assert SortedByRatio(bottom, key) by {
      forall i | 0 <= i < |bottom| - 1 ensures RatioGe(key(bottom[i]), key(bottom[i + 1])) {
        assert bottom[i] == sorted[m + i] && bottom[i + 1] == sorted[m + i + 1];
      }
    }
    LeftOutRankHigher(s, sorted, key, m);
  }

  /** Every entry of s outside the suffix from m of its sorted permutation
      ranks at least as high as every entry of the suffix. */
  lemma LeftOutRankHigher<T>(s: seq<T>, sorted: seq<T>, key: T -> Ratio, m: nat)
    requires SortedByRatio(sorted, key) && multiset(sorted) == multiset(s) && m <= |sorted|
    ensures forall x, y :: x in sorted[m..] && y in s && y !in sorted[m..] ==> RatioGe(key(y), key(x))
  {
    TopEntries(sorted, key, m);
    assert sorted == sorted[..m] + sorted[m..];
    forall x, y | x in sorted[m..] && y in s && y !in sorted[m..] ensures RatioGe(key(y), key(x)) {
      assert y in multiset(s);
      assert y in sorted;
      assert y in sorted[..m];
    }
  }

  /** Reversing a list in descending order of key gives ascending order. */
  lemma ReverseAscending<T(!new)>(s: seq<T>, key: T -> Ratio)
    requires SortedByRatio(s, key)
    ensures forall i :: 0 <= i < |s| - 1 ==> RatioGe(key(Reverse(s)[i + 1]), key(Reverse(s)[i]))
  {
    var r := Reverse(s);
    forall i | 0 <= i < |s| - 1 ensures RatioGe(key(r[i + 1]), key(r[i])) {
      assert r[i] == s[|s| - 1 - i] && r[i + 1] == s[|s| - 2 - i];
    }
  }
}

