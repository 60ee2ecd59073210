/** Runs of consecutive days in a list of dates ordered newest first: the
    run at the head of the list that both streak computations count. */
module Runs {
  import opened Common
  import opened Sorting

  /** The length of the run at the head of s that steps down one day at a
      time from expected. */
  function LeadingRun(s: seq<Date>, expected: Date): (n: nat)
    ensures n <= |s|
    ensures forall j :: 0 <= j < n ==> s[j] == expected - j
    ensures n < |s| ==> s[n] != expected - n
  {
    if s == [] || s[0] != expected then 0
    else 1 + LeadingRun(s[1..], expected - 1)
  }

  /** The run length is determined by the first index that breaks the run. */
  lemma {:induction false} LeadingRunExact(s: seq<Date>, expected: Date, n: nat)
    requires n <= |s|
    requires forall j :: 0 <= j < n ==> s[j] == expected - j
    requires n < |s| ==> s[n] != expected - n
    ensures LeadingRun(s, expected) == n
  {
    if n > 0 {
      LeadingRunExact(s[1..], expected - 1, n - 1);
    }
  }

  /** In a strictly descending list the head run is exactly the dates from
      expected down to expected - n + 1. */
  lemma RunMeaning(s: seq<Date>, expected: Date, n: nat)
    requires StrictlyDescending(s) && n == LeadingRun(s, expected)
    ensures forall d :: expected - n < d <= expected ==> d in s
    ensures n > 0 ==> expected - n !in s
  {
    forall d | expected - n < d <= expected ensures d in s {
      var j := expected - d;
      assert 0 <= j < n;
      assert s[j] == expected - j;
    }
    if n > 0 {
      forall k | 0 <= k < |s| ensures s[k] != expected - n {
        if n < k {
          assert s[n - 1] == expected - (n - 1) && s[n - 1] > s[n] && s[n] > s[k];
        }
      }
    }
  }

  /** s[lo..hi] (both ends included) is a run: each entry exactly one day
      after the next. */
  predicate IsRun(s: seq<Date>, lo: int, hi: int)
  {
    0 <= lo <= hi < |s| && forall k :: lo <= k < hi ==> s[k] - s[k + 1] == 1
  }

  /** The length of the longest run ending at position i. */
  function RunEndingAt(s: seq<Date>, i: nat): nat
    requires i < |s|
  {
    if i == 0 then 1
    else if s[i - 1] - s[i] == 1 then RunEndingAt(s, i - 1) + 1
    else 1
  }

  /** The length of the longest run within s[..i + 1]. */
  function LongestUpTo(s: seq<Date>, i: nat): nat
    requires i < |s|
  {
    if i == 0 then 1 else Max(LongestUpTo(s, i - 1), RunEndingAt(s, i))
  }

  /** The longest run of the whole list; 0 for the empty list. */
  function LongestRun(s: seq<Date>): nat
  {
    if s == [] then 0 else LongestUpTo(s, |s| - 1)
  }

  lemma {:induction false} RunEndingAtSpec(s: seq<Date>, i: nat)
    requires i < |s|
    ensures 1 <= RunEndingAt(s, i) <= i + 1
    ensures IsRun(s, i + 1 - RunEndingAt(s, i), i)
    ensures forall lo :: IsRun(s, lo, i) ==> i + 1 - lo <= RunEndingAt(s, i)
  {
    if i > 0 {
      RunEndingAtSpec(s, i - 1);
      forall lo | IsRun(s, lo, i) && lo < i ensures IsRun(s, lo, i - 1) {
      }
      if s[i - 1] - s[i] != 1 {
        forall lo | IsRun(s, lo, i) ensures lo == i {
        }
      }
    }
  }

  lemma {:induction false} LongestUpToSpec(s: seq<Date>, i: nat)
    requires i < |s|
    ensures 1 <= LongestUpTo(s, i) <= i + 1
    ensures exists lo, hi :: IsRun(s, lo, hi) && hi <= i && hi - lo + 1 == LongestUpTo(s, i)
    ensures forall lo, hi :: IsRun(s, lo, hi) && hi <= i ==> hi - lo + 1 <= LongestUpTo(s, i)
  {
    RunEndingAtSpec(s, i);
    if i == 0 {
      assert IsRun(s, 0, 0);
    } else {
      LongestUpToSpec(s, i - 1);
      var r := RunEndingAt(s, i);
      if LongestUpTo(s, i - 1) < r {
        assert IsRun(s, i + 1 - r, i);
      } else {
        var lo, hi :| IsRun(s, lo, hi) && hi <= i - 1 && hi - lo + 1 == LongestUpTo(s, i - 1);
        assert IsRun(s, lo, hi) && hi <= i;
      }
    }
  }

  /** The longest run is 0 for the empty list; otherwise between 1 and the
      length, some run has that length and no run is longer. */
  lemma LongestRunSpec(s: seq<Date>)
    ensures s == [] ==> LongestRun(s) == 0
    ensures s != [] ==> 1 <= LongestRun(s) <= |s|
    ensures s != [] ==> exists lo, hi :: IsRun(s, lo, hi) && hi - lo + 1 == LongestRun(s)
    ensures forall lo, hi :: IsRun(s, lo, hi) ==> hi - lo + 1 <= LongestRun(s)
  {
    if s != [] {
      LongestUpToSpec(s, |s| - 1);
    }
  }

  /** In a list newest first, the run at the head is no longer than the
      longest run. */
  lemma HeadRunWithinLongest(s: seq<Date>)
    requires s != []
    ensures LeadingRun(s, s[0]) <= LongestRun(s)
  {
    var n := LeadingRun(s, s[0]);
    LongestRunSpec(s);
    assert IsRun(s, 0, n - 1) by {
      forall k | 0 <= k < n - 1 ensures s[k] - s[k + 1] == 1 {
        assert s[k] == s[0] - k && s[k + 1] == s[0] - (k + 1);
      }
    }
  }
}
