/** The analytics endpoints: per-activity current and longest streaks, and
    the statistics report's integer counting (expected and actual
    completions per activity and per weekday, the best and worst activities,
    the window and its two halves). Today's date and the store's rows are
    inputs. */
module Analytics {
  import opened Common
  import opened Sorting
  import opened Runs

  // ---------------------------------------------------------------------
  // Streaks

  /** The streak report of one activity. */
  datatype Streaks = Streaks(current: nat, longest: nat, lastCompleted: Option<Date>)

  /** The (date, activity id) log pairs of one activity: their dates. */
  function DatesFor(logs: seq<(Date, int)>, activityId: int): (r: seq<Date>)
    ensures forall d :: d in r <==> (d, activityId) in logs
  {
    if logs == [] then []
    else
      var l := logs[|logs| - 1];
      assert logs == logs[..|logs| - 1] + [l];
      DatesFor(logs[..|logs| - 1], activityId) + (if l.1 == activityId then [l.0] else [])
  }

  /** _calculate_longest_streak: walks neighbouring pairs, extending the
      current run when they are one day apart and restarting it otherwise. */
  method LongestStreak(dates: seq<Date>) returns (longest: nat)
    ensures longest == LongestRun(dates)
  {
    if dates == [] {
      return 0;
    }
    longest := 1;
    var current := 1;
    for i := 0 to |dates| - 1
      invariant current == RunEndingAt(dates, i)
      invariant longest == LongestUpTo(dates, i)
    {
      if dates[i] - dates[i + 1] == 1 {
        current := current + 1;
        longest := Max(longest, current);
      } else {
        current := 1;
        assert LongestUpTo(dates, i + 1) == Max(longest, 1);
        RunEndingAtSpec(dates, 0);
        LongestUpToSpec(dates, i);
      }
    }
  }

  /** calculate_streaks' result, from the activity's distinct dates newest
      first. */
  function StreaksOf(logs: seq<(Date, int)>, activityId: int, today: Date): Streaks
  {
    var dates := SortDistinctDesc(DatesFor(logs, activityId));
    if logs == [] || dates == [] then Streaks(0, 0, None)
    else if dates[0] != today && dates[0] != today - 1 then Streaks(0, LongestRun(dates), Some(dates[0]))
    else
      var current := LeadingRun(dates, dates[0]);
      Streaks(current, Max(current, LongestRun(dates)), Some(dates[0]))
  }

  /** calculate_streaks, with its counting loop. */
  method CalculateStreaks(logs: seq<(Date, int)>, activityId: int, today: Date) returns (r: Streaks)
    ensures r == StreaksOf(logs, activityId, today)
  {
    if logs == [] {
      return Streaks(0, 0, None);
    }
    var dates := SortDistinctDesc(DatesFor(logs, activityId));
    if dates == [] {
      return Streaks(0, 0, None);
    }
    var expected := today;
    if dates[0] == today {
      expected := today;
    } else if dates[0] == today - 1 {
      expected := today - 1;
    } else {
      var longest := LongestStreak(dates);
      return Streaks(0, longest, Some(dates[0]));
    }
    ghost var first := expected;
    var current := 0;
    for i := 0 to |dates|
      invariant current == i && expected == first - i
      invariant forall j :: 0 <= j < i ==> dates[j] == first - j
    {
      if dates[i] == expected {
        current := current + 1;
        expected := dates[i] - 1;
      } else {
        LeadingRunExact(dates, first, i);
        break;
      }
      if i == |dates| - 1 {
        LeadingRunExact(dates, first, |dates|);
      }
    }
    var longest := LongestStreak(dates);
    r := Streaks(current, Max(current, longest), Some(dates[0]));
  }

  /** Without logs of the activity there is no streak and no last date;
      otherwise the last date is the latest of the activity's dates. */
  lemma StreaksLastCompleted(logs: seq<(Date, int)>, activityId: int, today: Date)
    ensures var r := StreaksOf(logs, activityId, today);
      (r.lastCompleted.None? <==> forall d :: (d, activityId) !in logs)
      && (r.lastCompleted.None? ==> r.current == 0 && r.longest == 0)
      && (r.lastCompleted.Some? ==>
            (r.lastCompleted.value, activityId) in logs
            && forall d :: (d, activityId) in logs ==> d <= r.lastCompleted.value)
  {
    var dates := SortDistinctDesc(DatesFor(logs, activityId));
    if dates != [] {
      assert dates[0] in dates;
      forall d | (d, activityId) in logs ensures d <= dates[0] {
        assert d in dates;
        var k :| 0 <= k < |dates| && dates[k] == d;
      }
    }
  }

  /** The current streak runs exactly when the latest date is today or
      yesterday, and then covers the consecutive days back from it: all of
      them were completed and the day before was not. */
  lemma StreaksCurrent(logs: seq<(Date, int)>, activityId: int, today: Date, r: Streaks)
    requires r == StreaksOf(logs, activityId, today)
    ensures r.current > 0 <==> r.lastCompleted.Some? && (r.lastCompleted.value == today || r.lastCompleted.value == today - 1)
    ensures r.current > 0 ==> forall d :: r.lastCompleted.value - r.current < d <= r.lastCompleted.value ==> (d, activityId) in logs
    ensures r.current > 0 ==> (r.lastCompleted.value - r.current, activityId) !in logs
  {
    var dates := SortDistinctDesc(DatesFor(logs, activityId));
    if logs != [] && dates != [] {
      assert r.lastCompleted == Some(dates[0]);
      if r.current > 0 {
        assert r.current == LeadingRun(dates, dates[0]);
        RunMeaning(dates, dates[0], r.current);
        assert forall d :: d in dates <==> (d, activityId) in logs;
      }
    }
  }

  /** The reported longest streak is the longest run of the activity's
      dates, never below the current streak. */
  lemma StreaksLongest(logs: seq<(Date, int)>, activityId: int, today: Date)
    ensures var r := StreaksOf(logs, activityId, today);
      r.current <= r.longest
      && r.longest == LongestRun(SortDistinctDesc(DatesFor(logs, activityId)))
  {
    var dates := SortDistinctDesc(DatesFor(logs, activityId));
    if logs != [] && dates != [] {
      HeadRunWithinLongest(dates);
    }
  }

  // ---------------------------------------------------------------------
  // Statistics: expected completions

  /** An active activity as the statistics query reads it. */
  datatype StatActivity = StatActivity(id: int, name: string, points: int, daysOfWeek: Option<string>)

  /** The statistics loop's test: a NULL day-set is expected every day, an
      empty one on no day, otherwise on the listed weekdays. It ignores the
      biweekly cadence. */
  function ExpectedOn(days: Option<string>, d: Date): (r: bool)
    ensures days.None? ==> r
    ensures days == Some("") ==> !r
    ensures r && days.Some? ==> DayName(d) in Split(days.value)
    ensures days.Some? ==> (r <==> DayName(d) in Split(days.value))
  {
    match days
    case None => true
    case Some(s) => DayName(d) in (if s != "" then Split(s) else [])
  }

  /** The days of the n-day window from start on which a is expected. */
  function ExpectedCount(a: StatActivity, start: Date, n: nat): nat
  {
    if n == 0 then 0
    else ExpectedCount(a, start, n - 1) + (if ExpectedOn(a.daysOfWeek, start + n - 1) then 1 else 0)
  }

  /** How many of the activities are expected on date d. */
  function ExpectedActs(acts: seq<StatActivity>, d: Date): nat
  {
    if acts == [] then 0
    else ExpectedActs(acts[..|acts| - 1], d) + (if ExpectedOn(acts[|acts| - 1].daysOfWeek, d) then 1 else 0)
  }

  /** The weekday's expected total: over the window's days falling on
      weekday w, the activities expected that day. */
  function WeekdayTotal(acts: seq<StatActivity>, start: Date, n: nat, w: nat): nat
  {
    if n == 0 then 0
    else WeekdayTotal(acts, start, n - 1, w) + (if Weekday(start + n - 1) == w then ExpectedActs(acts, start + n - 1) else 0)
  }

  /** The sum of the activities' expected counts. */
  function SumExpected(acts: seq<StatActivity>, start: Date, n: nat): nat
  {
    if acts == [] then 0 else SumExpected(acts[..|acts| - 1], start, n) + ExpectedCount(acts[|acts| - 1], start, n)
  }

  function SumWeekdayTotals(acts: seq<StatActivity>, start: Date, n: nat): nat
  {
    WeekdayTotal(acts, start, n, 0) + WeekdayTotal(acts, start, n, 1) + WeekdayTotal(acts, start, n, 2)
      + WeekdayTotal(acts, start, n, 3) + WeekdayTotal(acts, start, n, 4) + WeekdayTotal(acts, start, n, 5)
      + WeekdayTotal(acts, start, n, 6)
  }

  /** A NULL day-set is expected on every day of the window, an empty one
      on none. */
  lemma {:induction false} ExpectedCountEveryDay(a: StatActivity, start: Date, n: nat)
    requires a.daysOfWeek.None?
    ensures ExpectedCount(a, start, n) == n
  {
    if n > 0 {
      ExpectedCountEveryDay(a, start, n - 1);
    }
  }

  lemma {:induction false} ExpectedCountNoDay(a: StatActivity, start: Date, n: nat)
    requires a.daysOfWeek == Some("")
    ensures ExpectedCount(a, start, n) == 0
  {
    if n > 0 {
      ExpectedCountNoDay(a, start, n - 1);
    }
  }

  lemma {:induction false} ExpectedCountAtMost(a: StatActivity, start: Date, n: nat)
    ensures ExpectedCount(a, start, n) <= n
  {
    if n > 0 {
      ExpectedCountAtMost(a, start, n - 1);
    }
  }

  lemma {:induction false} SumExpectedStep(acts: seq<StatActivity>, start: Date, n: nat)
    requires n > 0
    ensures SumExpected(acts, start, n) == SumExpected(acts, start, n - 1) + ExpectedActs(acts, start + n - 1)
  {
    if acts != [] {
      SumExpectedStep(acts[..|acts| - 1], start, n);
    }
  }

  /** Counting by weekday and counting by activity agree: the seven weekday
      totals add up to the sum of the activities' expected counts. */
  lemma {:induction false} WeekdayTotalsMatchActivities(acts: seq<StatActivity>, start: Date, n: nat)
    ensures SumWeekdayTotals(acts, start, n) == SumExpected(acts, start, n)
  {
    if n == 0 {
      SumExpectedZero(acts, start);
    } else {
      WeekdayTotalsMatchActivities(acts, start, n - 1);
      SumExpectedStep(acts, start, n);
    }
  }

  lemma {:induction false} SumExpectedZero(acts: seq<StatActivity>, start: Date)
    ensures SumExpected(acts, start, 0) == 0
  {
    if acts != [] {
      SumExpectedZero(acts[..|acts| - 1], start);
    }
  }

  // ---------------------------------------------------------------------
  // Statistics: actual completions

  /** A log row in the window: (activity id, completion date). */
  type Log = (int, Date)

  /** Logs of activity id. */
  function CompletedOf(logs: seq<Log>, id: int): nat
  {
    if logs == [] then 0
    else CompletedOf(logs[..|logs| - 1], id) + (if logs[|logs| - 1].0 == id then 1 else 0)
  }

  /** Logs of activity id on weekday w. */
  function ByDayOf(logs: seq<Log>, id: int, w: nat): nat
  {
    if logs == [] then 0
    else ByDayOf(logs[..|logs| - 1], id, w) + (if logs[|logs| - 1].0 == id && Weekday(logs[|logs| - 1].1) == w then 1 else 0)
  }

  /** Logs of any of the listed activities on weekday w. */
  function DayCompleted(logs: seq<Log>, ids: set<int>, w: nat): nat
  {
    if logs == [] then 0
    else DayCompleted(logs[..|logs| - 1], ids, w) + (if logs[|logs| - 1].0 in ids && Weekday(logs[|logs| - 1].1) == w then 1 else 0)
  }

  /** Logs of any of the listed activities. */
  function CountedLogs(logs: seq<Log>, ids: set<int>): nat
  {
    if logs == [] then 0 else CountedLogs(logs[..|logs| - 1], ids) + (if logs[|logs| - 1].0 in ids then 1 else 0)
  }

  function SumDayCompleted(logs: seq<Log>, ids: set<int>): nat
  {
    DayCompleted(logs, ids, 0) + DayCompleted(logs, ids, 1) + DayCompleted(logs, ids, 2) + DayCompleted(logs, ids, 3)
      + DayCompleted(logs, ids, 4) + DayCompleted(logs, ids, 5) + DayCompleted(logs, ids, 6)
  }

  function ByDaySeq(logs: seq<Log>, id: int): (r: seq<nat>)
    ensures |r| == 7 && forall w :: 0 <= w < 7 ==> r[w] == ByDayOf(logs, id, w)
  {
    [ByDayOf(logs, id, 0), ByDayOf(logs, id, 1), ByDayOf(logs, id, 2), ByDayOf(logs, id, 3),
     ByDayOf(logs, id, 4), ByDayOf(logs, id, 5), ByDayOf(logs, id, 6)]
  }

  /** Only logs of activities in the table are counted: the weekday counts
      add up to those logs, never more than all logs in the window. */
  lemma {:induction false} DayCompletedPartition(logs: seq<Log>, ids: set<int>)
    ensures SumDayCompleted(logs, ids) == CountedLogs(logs, ids) <= |logs|
  {
    if logs != [] {
      DayCompletedPartition(logs[..|logs| - 1], ids);
    }
  }

  /** An activity's weekday counts add up to its completions. */
  lemma {:induction false} ByDayPartition(logs: seq<Log>, id: int)
    ensures ByDayOf(logs, id, 0) + ByDayOf(logs, id, 1) + ByDayOf(logs, id, 2) + ByDayOf(logs, id, 3)
      + ByDayOf(logs, id, 4) + ByDayOf(logs, id, 5) + ByDayOf(logs, id, 6) == CompletedOf(logs, id)
  {
    if logs != [] {
      ByDayPartition(logs[..|logs| - 1], id);
    }
  }

  // ---------------------------------------------------------------------
  // Statistics: the counting tables

  /** One entry of the per-activity table. */
  datatype Stat = Stat(name: string, points: int, completed: nat, expected: nat, byDay: seq<nat>)

  function InitStat(a: StatActivity): Stat
  {
    Stat(a.name, a.points, 0, 0, [0, 0, 0, 0, 0, 0, 0])
  }

  /** Activity ids are primary keys. */
  predicate UniqueIds(acts: seq<StatActivity>)
  {
    forall i, j :: 0 <= i < j < |acts| ==> acts[i].id != acts[j].id
  }

  function IdSet(acts: seq<StatActivity>): set<int>
  {
    set a | a in acts :: a.id
  }

  /** The table entry of activity a once both counting loops are done. */
  function FinalStat(a: StatActivity, logs: seq<Log>, start: Date, n: nat): Stat
  {
    Stat(a.name, a.points, CompletedOf(logs, a.id), ExpectedCount(a, start, n), ByDaySeq(logs, a.id))
  }

  /** Builds the table with every count at 0. */
  method InitStats(acts: seq<StatActivity>) returns (stats: map<int, Stat>)
    requires UniqueIds(acts)
    ensures stats.Keys == IdSet(acts)
    ensures forall j :: 0 <= j < |acts| ==> stats[acts[j].id] == InitStat(acts[j])
  {
    stats := map[];
    for i := 0 to |acts|
      invariant stats.Keys == IdSet(acts[..i])
      invariant forall j :: 0 <= j < i ==> stats[acts[j].id] == InitStat(acts[j])
    {
      assert acts[..i + 1] == acts[..i] + [acts[i]];
      stats := stats[acts[i].id := InitStat(acts[i])];
    }
    assert acts[..|acts|] == acts;
  }

  /** What day start + k adds to its weekday's expected total. */
  lemma DayStep(acts: seq<StatActivity>, start: Date, k: nat)
    ensures forall v ::
      WeekdayTotal(acts, start, k + 1, v) ==
        WeekdayTotal(acts, start, k, v) + (if v == Weekday(start + k) then ExpectedActs(acts, start + k) else 0)
  {
  }

  /** How many of the activities carry id x and are expected on date d. */
  function Hits(acts: seq<StatActivity>, x: int, d: Date): nat
  {
    if acts == [] then 0
    else Hits(acts[..|acts| - 1], x, d) + (if acts[|acts| - 1].id == x && ExpectedOn(acts[|acts| - 1].daysOfWeek, d) then 1 else 0)
  }

  /** With unique ids, an activity hits its own id exactly when it is expected. */
  lemma {:induction false} HitsUnique(acts: seq<StatActivity>, d: Date, i: int)
    requires UniqueIds(acts) && 0 <= i < |acts|
    ensures Hits(acts, acts[i].id, d) == if ExpectedOn(acts[i].daysOfWeek, d) then 1 else 0
  {
    var last := |acts| - 1;
    var init := acts[..last];
    if i == last {
      HitsNone(init, acts[i].id, d);
    } else {
      assert init[i] == acts[i];
      HitsUnique(init, d, i);
    }
  }

  lemma {:induction false} HitsNone(acts: seq<StatActivity>, x: int, d: Date)
    requires forall a :: a in acts ==> a.id != x
    ensures Hits(acts, x, d) == 0
  {
    if acts != [] {
      assert acts[|acts| - 1] in acts;
      HitsNone(acts[..|acts| - 1], x, d);
    }
  }

  /** One activity on date d: when it is expected, one more expected
      completion for it and for d's weekday. */
  method CountActivity(a: StatActivity, stats0: map<int, Stat>, dayTotal0: seq<nat>, d: Date)
    returns (stats: map<int, Stat>, dayTotal: seq<nat>)
    requires a.id in stats0 && |dayTotal0| == 7
    ensures var e := if ExpectedOn(a.daysOfWeek, d) then 1 else 0;
      stats == stats0[a.id := stats0[a.id].(expected := stats0[a.id].expected + e)]
      && dayTotal == dayTotal0[Weekday(d) := dayTotal0[Weekday(d)] + e]
  {
    stats, dayTotal := stats0, dayTotal0;
    if ExpectedOn(a.daysOfWeek, d) {
      var w := Weekday(d);
      stats := stats[a.id := stats[a.id].(expected := stats[a.id].expected + 1)];
      dayTotal := dayTotal[w := dayTotal[w] + 1];
    }
  }

  /** What one day adds: each id its activities expected on d, d's weekday
      the number of activities expected on d, the other weekdays nothing. */
  ghost predicate DayCounted(acts: seq<StatActivity>, stats0: map<int, Stat>, dayTotal0: seq<nat>, d: Date,
                             stats: map<int, Stat>, dayTotal: seq<nat>)
    requires |dayTotal0| == 7
  {
    stats.Keys == stats0.Keys
    && (forall x :: x in stats ==> stats[x] == stats0[x].(expected := stats0[x].expected + Hits(acts, x, d)))
    && |dayTotal| == 7 && dayTotal[Weekday(d)] == dayTotal0[Weekday(d)] + ExpectedActs(acts, d)
    && forall v :: 0 <= v < 7 && v != Weekday(d) ==> dayTotal[v] == dayTotal0[v]
  }

  /** One day of the expected-count loop: each activity expected on d gets
      one more expected completion, and so does d's weekday. */
  method CountDay(acts: seq<StatActivity>, stats0: map<int, Stat>, dayTotal0: seq<nat>, d: Date)
    returns (stats: map<int, Stat>, dayTotal: seq<nat>)
    requires stats0.Keys == IdSet(acts) && |dayTotal0| == 7
    ensures stats.Keys == IdSet(acts)
    ensures DayCounted(acts, stats0, dayTotal0, d, stats, dayTotal)
  {
    var w := Weekday(d);
    stats, dayTotal := stats0, dayTotal0;
    for i := 0 to |acts|
      invariant stats.Keys == stats0.Keys
      invariant forall x :: x in stats ==> stats[x] == stats0[x].(expected := stats0[x].expected + Hits(acts[..i], x, d))
      invariant |dayTotal| == 7 && dayTotal[w] == dayTotal0[w] + ExpectedActs(acts[..i], d)
      invariant forall v :: 0 <= v < 7 && v != w ==> dayTotal[v] == dayTotal0[v]
    {
      assert acts[..i + 1][..i] == acts[..i];
      assert acts[i].id in stats;
      stats, dayTotal := CountActivity(acts[i], stats, dayTotal, d);
    }
    assert acts[..|acts|] == acts;
  }

  /** Expected completions of the activities with id x over the n-day window. */
  function IdExpected(acts: seq<StatActivity>, x: int, start: Date, n: nat): nat
  {
    if n == 0 then 0 else IdExpected(acts, x, start, n - 1) + Hits(acts, x, start + n - 1)
  }

  /** With unique ids, counting by id is counting the activity's own days. */
  lemma {:induction false} IdExpectedAt(acts: seq<StatActivity>, start: Date, n: nat, j: int)
    requires UniqueIds(acts) && 0 <= j < |acts|
    ensures IdExpected(acts, acts[j].id, start, n) == ExpectedCount(acts[j], start, n)
  {
    if n > 0 {
      IdExpectedAt(acts, start, n - 1, j);
      HitsUnique(acts, start + n - 1, j);
    }
  }

  /** The expected-count loop's invariant: the table and the weekday totals
      hold the counts over the window's first k days. */
  ghost predicate ExpectedCounted(acts: seq<StatActivity>, stats0: map<int, Stat>, start: Date, k: nat,
                                  stats: map<int, Stat>, dayTotal: seq<nat>)
  {
    stats0.Keys == IdSet(acts) && stats.Keys == IdSet(acts)
    && (forall x :: x in stats ==> stats[x] == stats0[x].(expected := IdExpected(acts, x, start, k)))
    && |dayTotal| == 7 && forall w :: 0 <= w < 7 ==> dayTotal[w] == WeekdayTotal(acts, start, k, w)
  }

  /** One more day of the window counted. */
  method CountNextDay(acts: seq<StatActivity>, stats0: map<int, Stat>, start: Date, k: nat,
                      stats: map<int, Stat>, dayTotal: seq<nat>)
    returns (stats': map<int, Stat>, dayTotal': seq<nat>)
    requires ExpectedCounted(acts, stats0, start, k, stats, dayTotal)
    ensures ExpectedCounted(acts, stats0, start, k + 1, stats', dayTotal')
  {
    stats', dayTotal' := CountDay(acts, stats, dayTotal, start + k);
    NextDayCounted(acts, stats0, start, k, stats, dayTotal, stats', dayTotal');
  }

  lemma NextDayCounted(acts: seq<StatActivity>, stats0: map<int, Stat>, start: Date, k: nat,
                       stats: map<int, Stat>, dayTotal: seq<nat>, stats': map<int, Stat>, dayTotal': seq<nat>)
    requires ExpectedCounted(acts, stats0, start, k, stats, dayTotal)
    requires DayCounted(acts, stats, dayTotal, start + k, stats', dayTotal')
    ensures ExpectedCounted(acts, stats0, start, k + 1, stats', dayTotal')
  {
    forall x | x in stats' ensures stats'[x] == stats0[x].(expected := IdExpected(acts, x, start, k + 1)) {
      assert IdExpected(acts, x, start, k + 1) == IdExpected(acts, x, start, k) + Hits(acts, x, start + k);
    }
    DayStep(acts, start, k);
  }

  /** At the end of the window, counting by id is counting each activity. */
  lemma ExpectedDone(acts: seq<StatActivity>, stats0: map<int, Stat>, start: Date, n: nat,
                     stats: map<int, Stat>, dayTotal: seq<nat>)
    requires UniqueIds(acts)
    requires ExpectedCounted(acts, stats0, start, n, stats, dayTotal)
    ensures forall j :: 0 <= j < |acts| ==>
      stats[acts[j].id] == stats0[acts[j].id].(expected := ExpectedCount(acts[j], start, n))
  {
    forall j | 0 <= j < |acts| ensures IdExpected(acts, acts[j].id, start, n) == ExpectedCount(acts[j], start, n) {
      IdExpectedAt(acts, start, n, j);
    }
    forall j | 0 <= j < |acts|
      ensures stats[acts[j].id] == stats0[acts[j].id].(expected := ExpectedCount(acts[j], start, n))
    {
      assert acts[j].id in stats;
    }
  }

  /** The expected-count loop: for every day of the window and every
      activity expected that day, one more expected completion for the
      activity and for the day's weekday. */
  method CountExpected(acts: seq<StatActivity>, stats0: map<int, Stat>, start: Date, n: nat)
    returns (stats: map<int, Stat>, dayTotal: seq<nat>)
    requires UniqueIds(acts)
    requires stats0.Keys == IdSet(acts)
    requires forall x :: x in stats0 ==> stats0[x].expected == 0
    ensures stats.Keys == IdSet(acts)
    ensures forall j :: 0 <= j < |acts| ==>
      stats[acts[j].id] == stats0[acts[j].id].(expected := ExpectedCount(acts[j], start, n))
    ensures |dayTotal| == 7 && forall w :: 0 <= w < 7 ==> dayTotal[w] == WeekdayTotal(acts, start, n, w)
  {
    stats := stats0;
    dayTotal := [0, 0, 0, 0, 0, 0, 0];
    for k := 0 to n
      invariant ExpectedCounted(acts, stats0, start, k, stats, dayTotal)
    {
      stats, dayTotal := CountNextDay(acts, stats0, start, k, stats, dayTotal);
    }
    ExpectedDone(acts, stats0, start, n, stats, dayTotal);
  }

  /** What the log at position k adds to each count. */
  lemma LogStep(logs: seq<Log>, k: nat, ids: set<int>)
    requires k < |logs|
    ensures forall x :: CompletedOf(logs[..k + 1], x) == CompletedOf(logs[..k], x) + (if logs[k].0 == x then 1 else 0)
    ensures forall x ::
      ByDaySeq(logs[..k + 1], x) ==
        if logs[k].0 == x then ByDaySeq(logs[..k], x)[Weekday(logs[k].1) := ByDaySeq(logs[..k], x)[Weekday(logs[k].1)] + 1]
        else ByDaySeq(logs[..k], x)
    ensures forall w ::
      DayCompleted(logs[..k + 1], ids, w) ==
        DayCompleted(logs[..k], ids, w) + (if logs[k].0 in ids && Weekday(logs[k].1) == w then 1 else 0)
  {
    assert logs[..k + 1][..k] == logs[..k];
  }

  /** The completion loop's invariant: the table and the weekday totals
      hold the counts over the logs seen so far. */
  ghost predicate CompletionsCounted(stats0: map<int, Stat>, seen: seq<Log>, stats: map<int, Stat>, dayCompleted: seq<nat>)
  {
    stats.Keys == stats0.Keys
    && (forall x :: x in stats ==>
          stats[x] == stats0[x].(completed := CompletedOf(seen, x), byDay := ByDaySeq(seen, x)))
    && |dayCompleted| == 7 && forall w :: 0 <= w < 7 ==> dayCompleted[w] == DayCompleted(seen, stats0.Keys, w)
  }

  /** One more log counted: a log of an activity in the table adds one
      completion to it, to its weekday column and to the weekday. */
  method CountLog(stats0: map<int, Stat>, logs: seq<Log>, k: nat, stats: map<int, Stat>, dayCompleted: seq<nat>)
    returns (stats': map<int, Stat>, dayCompleted': seq<nat>)
    requires k < |logs|
    requires CompletionsCounted(stats0, logs[..k], stats, dayCompleted)
    ensures CompletionsCounted(stats0, logs[..k + 1], stats', dayCompleted')
  {
    LogStep(logs, k, stats0.Keys);
    stats', dayCompleted' := stats, dayCompleted;
    var (id, day) := logs[k];
    if id in stats {
      var w := Weekday(day);
      var st := stats[id];
      stats' := stats[id := st.(completed := st.completed + 1, byDay := st.byDay[w := st.byDay[w] + 1])];
      dayCompleted' := dayCompleted[w := dayCompleted[w] + 1];
    }
  }

  /** The completion loop: each log of an activity in the table adds one
      completion to the activity, to its weekday column and to the weekday;
      logs of other activities are skipped. */
  method CountCompletions(stats0: map<int, Stat>, logs: seq<Log>)
    returns (stats: map<int, Stat>, dayCompleted: seq<nat>)
    requires forall x :: x in stats0 ==> stats0[x].completed == 0 && stats0[x].byDay == [0, 0, 0, 0, 0, 0, 0]
    ensures stats.Keys == stats0.Keys
    ensures forall x :: x in stats ==>
      stats[x] == stats0[x].(completed := CompletedOf(logs, x), byDay := ByDaySeq(logs, x))
    ensures |dayCompleted| == 7 && forall w :: 0 <= w < 7 ==> dayCompleted[w] == DayCompleted(logs, stats0.Keys, w)
  {
    stats := stats0;
    dayCompleted := [0, 0, 0, 0, 0, 0, 0];
    for k := 0 to |logs|
      invariant CompletionsCounted(stats0, logs[..k], stats, dayCompleted)
    {
      stats, dayCompleted := CountLog(stats0, logs, k, stats, dayCompleted);
    }
    assert logs[..|logs|] == logs;
  }

  // ---------------------------------------------------------------------
  // Statistics: the window and its halves

  /** The earliest date among the user's logs, as SELECT MIN(completed_at)
      gives it; None when the user has no logs. */
  function FirstLog(logs: seq<Log>): (r: Option<Date>)
    ensures r.None? <==> logs == []
    ensures r.Some? ==> (exists l :: l in logs && l.1 == r.value) && forall l :: l in logs ==> r.value <= l.1
  {
    if logs == [] then None
    else
      var init, l := logs[..|logs| - 1], logs[|logs| - 1];
      assert logs == init + [l];
      match FirstLog(init)
      case None => Some(l.1)
      case Some(f) => Some(if l.1 < f then l.1 else f)
  }

  /** The window's first day: `days` days before today, moved up to the
      first log when that is later. */
  function WindowStart(days: int, today: Date, allLogs: seq<Log>): (r: Date)
    ensures r >= today - days
    ensures r == today - days || forall l :: l in allLogs ==> r <= l.1
    ensures forall l :: l in allLogs && today - days <= l.1 ==> r <= l.1
  {
    match FirstLog(allLogs)
    case None => today - days
    case Some(f) => Max(today - days, f)
  }

  /** The logs dated lo..hi, in their order. */
  function Between(logs: seq<Log>, lo: Date, hi: Date): (r: seq<Log>)
    ensures |r| <= |logs|
    ensures forall l :: l in r <==> l in logs && lo <= l.1 <= hi
  {
    if logs == [] then []
    else
      var init, l := logs[..|logs| - 1], logs[|logs| - 1];
      assert logs == init + [l];
      Between(init, lo, hi) + (if lo <= l.1 <= hi then [l] else [])
  }

  /** The logs dated before mid. */
  function Earlier(logs: seq<Log>, mid: Date): (r: seq<Log>)
    ensures forall l :: l in r <==> l in logs && l.1 < mid
  {
    if logs == [] then []
    else
      var init, l := logs[..|logs| - 1], logs[|logs| - 1];
      assert logs == init + [l];
      Earlier(init, mid) + (if l.1 < mid then [l] else [])
  }

  /** The logs dated mid or later. */
  function Later(logs: seq<Log>, mid: Date): (r: seq<Log>)
    ensures forall l :: l in r <==> l in logs && l.1 >= mid
  {
    if logs == [] then []
    else
      var init, l := logs[..|logs| - 1], logs[|logs| - 1];
      assert logs == init + [l];
      Later(init, mid) + (if l.1 >= mid then [l] else [])
  }

  /** Every log falls in exactly one half. */
  lemma {:induction false} HalvesPartition(logs: seq<Log>, mid: Date)
    ensures |Earlier(logs, mid)| + |Later(logs, mid)| == |logs|
  {
    if logs != [] {
      HalvesPartition(logs[..|logs| - 1], mid);
    }
  }

  /** count / days as the source's half and per-day averages compute it,
      or 0 for a period of no days. */
  function PerDay(count: nat, days: int): (r: Ratio)
    ensures days > 0 ==> r.num * days == count * r.den
    ensures days <= 0 ==> r.num == 0
  {
    if days > 0 then Ratio(count, days) else Ratio(0, 1)
  }

  /** The first half's logs per day: the half has the floor of half the
      window's days. */
  function FirstHalfRate(logs: seq<Log>, start: Date, actualDays: int): Ratio
  {
    PerDay(|Earlier(logs, start + actualDays / 2)|, actualDays / 2)
  }

  /** The second half's logs per day: it has the remaining days. */
  function SecondHalfRate(logs: seq<Log>, start: Date, actualDays: int): Ratio
  {
    PerDay(|Later(logs, start + actualDays / 2)|, actualDays - actualDays / 2)
  }

  datatype Direction = Improving | Declining | Stable

  /** Improving above 110% of the first half's rate, declining below 90%. */
  function DirectionOf(first: Ratio, second: Ratio): (r: Direction)
    ensures first.num == 0 ==> (r == Improving <==> second.num > 0) && (r == Declining <==> second.num < 0)
  {
    MulMono(second.num, 0, 10 * first.den);
    if RatioGt(second, Ratio(11 * first.num, 10 * first.den)) then Improving
    else if RatioGt(Ratio(9 * first.num, 10 * first.den), second) then Declining
    else Stable
  }

  /** Equal rates are stable, and a higher second half never reads as
      declining nor a lower one as improving. */
  lemma DirectionOrder(first: Ratio, second: Ratio)
    requires first.num >= 0 && second.num >= 0
    ensures first == second ==> DirectionOf(first, second) == Stable
    ensures RatioGe(second, first) ==> DirectionOf(first, second) != Declining
    ensures RatioGe(first, second) ==> DirectionOf(first, second) != Improving
  {
    ScaledProducts(first.num, first.den, second.num, second.den);
  }

  /** The cross products behind DirectionOf's comparisons, written as
      multiples of a * d and c * b. */
  lemma ScaledProducts(a: int, b: Positive, c: int, d: Positive)
    requires a >= 0
    ensures c * (10 * b) == 10 * (c * b)
    ensures (11 * a) * d == 11 * (a * d) && (9 * a) * d == 9 * (a * d)
    ensures a * d >= 0
  {
  }

  // ---------------------------------------------------------------------
  // Statistics: the report

  /** An activity's completion rate, completed / expected * 100, or 0 when
      nothing was expected. */
  function Rate(s: Stat): Ratio
  {
    Percent(s.completed, s.expected)
  }

  /** The activity list: the final table entries with something expected,
      in table order. */
  function Scheduled(acts: seq<StatActivity>, logs: seq<Log>, start: Date, n: nat): (r: seq<Stat>)
    ensures |r| <= |acts|
    ensures forall s :: s in r ==> s.expected > 0 && exists a :: a in acts && s == FinalStat(a, logs, start, n)
  {
    if acts == [] then []
    else
      var init, a := acts[..|acts| - 1], acts[|acts| - 1];
      assert acts == init + [a];
      var s := FinalStat(a, logs, start, n);
      Scheduled(init, logs, start, n) + (if s.expected > 0 then [s] else [])
  }

  /** The list ranked by rate, highest first, ties in list order. */
  function Ranked(list: seq<Stat>): seq<Stat>
  {
    SortByRatioDesc(list, Rate)
  }

  /** The five highest-ranked entries (all of them when fewer). */
  function Best(list: seq<Stat>): seq<Stat>
  {
    var s := Ranked(list);
    if |s| >= 5 then s[..5] else s
  }

  /** The five lowest-ranked entries, lowest first (all of them when fewer). */
  function Worst(list: seq<Stat>): seq<Stat>
  {
    var s := Ranked(list);
    if |s| >= 5 then Reverse(s[|s| - 5..]) else Reverse(s)
  }

  /** One row of the weekday table. */
  datatype DayRow = DayRow(day: string, dayNum: nat, completed: nat, total: nat, rate: Ratio)

  function DayRowOf(w: nat, completed: nat, total: nat): DayRow
    requires w < 7
  {
    DayRow(FullDayNames[w], w, completed, total, Percent(completed, total))
  }

  datatype Report = Report(
    start: Date, end: Date, actualDays: int,
    byDay: seq<DayRow>, best: seq<Stat>, worst: seq<Stat>,
    totalActivities: nat, totalCompletions: nat, averagePerDay: Ratio, overallRate: Ratio,
    direction: Direction, firstHalfRate: Ratio, secondHalfRate: Ratio)

  /** The completions of the listed activities per weekday, Monday first. */
  function DayCompletedSeq(logs: seq<Log>, ids: set<int>): (r: seq<nat>)
    ensures |r| == 7 && forall w :: 0 <= w < 7 ==> r[w] == DayCompleted(logs, ids, w)
  {
    [DayCompleted(logs, ids, 0), DayCompleted(logs, ids, 1), DayCompleted(logs, ids, 2), DayCompleted(logs, ids, 3),
     DayCompleted(logs, ids, 4), DayCompleted(logs, ids, 5), DayCompleted(logs, ids, 6)]
  }

  /** The expected totals per weekday, Monday first. */
  function WeekdayTotalSeq(acts: seq<StatActivity>, start: Date, n: nat): (r: seq<nat>)
    ensures |r| == 7 && forall w :: 0 <= w < 7 ==> r[w] == WeekdayTotal(acts, start, n, w)
  {
    [WeekdayTotal(acts, start, n, 0), WeekdayTotal(acts, start, n, 1), WeekdayTotal(acts, start, n, 2),
     WeekdayTotal(acts, start, n, 3), WeekdayTotal(acts, start, n, 4), WeekdayTotal(acts, start, n, 5),
     WeekdayTotal(acts, start, n, 6)]
  }

  /** The weekday table, one row per weekday, Monday first. */
  function DayRows(dayCompleted: seq<nat>, dayTotal: seq<nat>): (rows: seq<DayRow>)
    requires |dayCompleted| == 7 && |dayTotal| == 7
    ensures |rows| == 7 && forall w :: 0 <= w < 7 ==> rows[w] == DayRowOf(w, dayCompleted[w], dayTotal[w])
  {
    seq(7, w requires 0 <= w < 7 => DayRowOf(w, dayCompleted[w], dayTotal[w]))
  }

  /** The report over the window from start to today, from the active
      activities and the logs dated in the window. */
  function ReportFor(start: Date, today: Date, acts: seq<StatActivity>, logs: seq<Log>): Report
  {
    var actualDays := today - start + 1;
    var n: nat := if actualDays > 0 then actualDays else 0;
    var list := Scheduled(acts, logs, start, n);
    var first := FirstHalfRate(logs, start, actualDays);
    var second := SecondHalfRate(logs, start, actualDays);
    Report(start, today, actualDays, DayRows(DayCompletedSeq(logs, IdSet(acts)), WeekdayTotalSeq(acts, start, n)),
           Best(list), Worst(list), |acts|, |logs|, PerDay(|logs|, actualDays),
           Percent(|logs|, SumExpected(acts, start, n)), DirectionOf(first, second), first, second)
  }

  /** get_statistics: the report over the `days` days before today and
      today, from the user's active activities and all of the user's logs. */
  function StatisticsOf(days: int, today: Date, acts: seq<StatActivity>, allLogs: seq<Log>): Result<Report>
  {
    if days < 1 || days > 365 then Failure(422)
    else
      var start := WindowStart(days, today, allLogs);
      Ok(ReportFor(start, today, acts, Between(allLogs, start, today)))
  }

  /** A `days` value outside 1..365 is refused with 422, any other is served. */
  lemma StatisticsValidation(days: int, today: Date, acts: seq<StatActivity>, allLogs: seq<Log>)
    ensures StatisticsOf(days, today, acts, allLogs).Failure? <==> days < 1 || days > 365
    ensures StatisticsOf(days, today, acts, allLogs).Failure? ==> StatisticsOf(days, today, acts, allLogs).status == 422
  {
  }

  /** The window ends today and starts `days` days back unless the user's
      first log is later, in which case it starts on that log's day: no log
      precedes a window moved up to the first log. It spans at most days + 1
      days, and at least one when no log is dated after today. The
      completions are the logs dated within it. */
  lemma StatisticsWindow(days: int, today: Date, acts: seq<StatActivity>, allLogs: seq<Log>, r: Report)
    requires StatisticsOf(days, today, acts, allLogs) == Ok(r)
    ensures r.end == today && r.start >= today - days
    ensures r.start == today - days || exists l :: l in allLogs && l.1 == r.start
    ensures forall l :: l in allLogs && l.1 < r.start ==> r.start == today - days
    ensures r.actualDays == today - r.start + 1 <= days + 1
    ensures (forall l :: l in allLogs ==> l.1 <= today) ==> r.actualDays >= 1
    ensures r.totalCompletions == |Between(allLogs, r.start, today)|
    ensures forall l :: l in Between(allLogs, r.start, today) <==> l in allLogs && r.start <= l.1 <= today
  {
    var f := FirstLog(allLogs);
    if f.Some? {
      var l :| l in allLogs && l.1 == f.value;
    }
  }

  /** The halves split the window's days, the first taking the floor of
      half, and split its logs: every log is counted in exactly one half. */
  lemma {:induction false} HalfRates(logs: seq<Log>, start: Date, actualDays: int)
    ensures var firstDays := actualDays / 2;
      var mid := start + firstDays;
      var first := FirstHalfRate(logs, start, actualDays);
      var second := SecondHalfRate(logs, start, actualDays);
      |Earlier(logs, mid)| + |Later(logs, mid)| == |logs|
      && (actualDays >= 2 ==>
            1 <= firstDays <= actualDays - firstDays <= firstDays + 1
            && first.num * firstDays == |Earlier(logs, mid)| * first.den
            && second.num * (actualDays - firstDays) == |Later(logs, mid)| * second.den)
  {
    HalvesPartition(logs, start + actualDays / 2);
  }

  /** The weekday table's totals add up to the activities' expected counts,
      and its completions to the logs of activities in the table, which are
      at most all logs of the window. */
  lemma StatisticsTotals(days: int, today: Date, acts: seq<StatActivity>, allLogs: seq<Log>, r: Report)
    requires StatisticsOf(days, today, acts, allLogs) == Ok(r)
    ensures var n := if r.actualDays > 0 then r.actualDays else 0;
      |r.byDay| == 7
      && r.byDay[0].total + r.byDay[1].total + r.byDay[2].total + r.byDay[3].total
         + r.byDay[4].total + r.byDay[5].total + r.byDay[6].total == SumExpected(acts, r.start, n)
      && r.byDay[0].completed + r.byDay[1].completed + r.byDay[2].completed + r.byDay[3].completed
         + r.byDay[4].completed + r.byDay[5].completed + r.byDay[6].completed
         == CountedLogs(Between(allLogs, r.start, today), IdSet(acts)) <= r.totalCompletions
  {
    var n := if r.actualDays > 0 then r.actualDays else 0;
    var logs := Between(allLogs, r.start, today);
    assert |r.byDay| == 7;
    assert forall w :: 0 <= w < 7 ==> r.byDay[w].total == WeekdayTotal(acts, r.start, n, w);
    assert forall w :: 0 <= w < 7 ==> r.byDay[w].completed == DayCompleted(logs, IdSet(acts), w);
    WeekdayTotalsMatchActivities(acts, r.start, n);
    DayCompletedPartition(logs, IdSet(acts));
  }

  /** Best holds the five highest-ranked entries of the list (all of them
      when fewer), highest first: each outranks every entry left out. */
  lemma BestRanks(list: seq<Stat>)
    ensures |Best(list)| == (if |list| < 5 then |list| else 5)
    ensures forall s :: s in Best(list) ==> s in list
    ensures SortedByRatio(Best(list), Rate)
    ensures forall x, y :: x in Best(list) && y in list && y !in Best(list) ==> RatioGe(Rate(x), Rate(y))
  {
    TopOfSorted(list, Rate, 5);
    var sorted := Ranked(list);
    var top := if |sorted| >= 5 then sorted[..5] else sorted;
    assert Best(list) == top;
    forall s | s in top ensures s in list {
      assert s in multiset(list);
    }
  }

  /** Worst holds the five lowest-ranked entries of the list (all of them
      when fewer), lowest first: each is outranked by every entry left out. */
  lemma WorstRanks(list: seq<Stat>)
    ensures |Worst(list)| == (if |list| < 5 then |list| else 5)
    ensures forall s :: s in Worst(list) ==> s in list
    ensures forall i :: 0 <= i < |Worst(list)| - 1 ==> RatioGe(Rate(Worst(list)[i + 1]), Rate(Worst(list)[i]))
    ensures forall x, y :: x in Worst(list) && y in list && y !in Worst(list) ==> RatioGe(Rate(y), Rate(x))
  {
    BottomOfSorted(list, Rate, 5);
    var sorted := Ranked(list);
    var bottom := if |sorted| >= 5 then sorted[|sorted| - 5..] else sorted;
    assert Worst(list) == Reverse(bottom);
    forall s | s in bottom ensures s in list {
      assert s in multiset(list);
    }
    ReverseAscending(bottom, Rate);
  }

  /** Every entry the report ranks was expected at least once in the window
      and is the final table entry of one of the activities. */
  lemma StatisticsRanked(days: int, today: Date, acts: seq<StatActivity>, allLogs: seq<Log>, r: Report)
    requires StatisticsOf(days, today, acts, allLogs) == Ok(r)
    ensures var n := if r.actualDays > 0 then r.actualDays else 0;
      var logs := Between(allLogs, r.start, today);
      forall s :: s in r.best || s in r.worst ==> s.expected > 0 && exists a :: a in acts && s == FinalStat(a, logs, r.start, n)
  {
    var n := if r.actualDays > 0 then r.actualDays else 0;
    var list := Scheduled(acts, Between(allLogs, r.start, today), r.start, n);
    assert r.best == Best(list) && r.worst == Worst(list);
    BestRanks(list);
    WorstRanks(list);
  }

  // ---------------------------------------------------------------------
  // Statistics: the handler

  /** The loop that fills the weekday table. */
  method BuildDayRows(dayCompleted: seq<nat>, dayTotal: seq<nat>) returns (rows: seq<DayRow>)
    requires |dayCompleted| == 7 && |dayTotal| == 7
    ensures rows == DayRows(dayCompleted, dayTotal)
  {
    rows := [];
    for w := 0 to 7
      invariant |rows| == w && forall v :: 0 <= v < w ==> rows[v] == DayRowOf(v, dayCompleted[v], dayTotal[v])
    {
      rows := rows + [DayRowOf(w, dayCompleted[w], dayTotal[w])];
    }
  }

  /** The activity list: the table's entries with something expected, in
      table order. */
  method ScheduledList(acts: seq<StatActivity>, stats: map<int, Stat>, logs: seq<Log>, start: Date, n: nat)
    returns (list: seq<Stat>)
    requires forall j :: 0 <= j < |acts| ==> acts[j].id in stats && stats[acts[j].id] == FinalStat(acts[j], logs, start, n)
    ensures list == Scheduled(acts, logs, start, n)
  {
    list := [];
    for i := 0 to |acts|
      invariant list == Scheduled(acts[..i], logs, start, n)
    {
      assert acts[..i + 1][..i] == acts[..i];
      var s := stats[acts[i].id];
      if s.expected > 0 {
        list := list + [s];
      }
    }
    assert acts[..|acts|] == acts;
  }

  /** The sum of the table's expected counts. */
  method TotalExpected(acts: seq<StatActivity>, stats: map<int, Stat>, start: Date, n: nat) returns (total: nat)
    requires forall j :: 0 <= j < |acts| ==> acts[j].id in stats && stats[acts[j].id].expected == ExpectedCount(acts[j], start, n)
    ensures total == SumExpected(acts, start, n)
  {
    total := 0;
    for i := 0 to |acts|
      invariant total == SumExpected(acts[..i], start, n)
    {
      assert acts[..i + 1][..i] == acts[..i];
      total := total + stats[acts[i].id].expected;
    }
    assert acts[..|acts|] == acts;
  }

  /** The report the handler assembles from its tables is the report over
      the window. */
  lemma ReportAssembled(start: Date, today: Date, acts: seq<StatActivity>, logs: seq<Log>, n: nat,
                        byDay: seq<DayRow>, list: seq<Stat>, totalExpected: nat)
    requires n == if today - start + 1 > 0 then today - start + 1 else 0
    requires byDay == DayRows(DayCompletedSeq(logs, IdSet(acts)), WeekdayTotalSeq(acts, start, n))
    requires list == Scheduled(acts, logs, start, n)
    requires totalExpected == SumExpected(acts, start, n)
    ensures var actualDays := today - start + 1;
      var first := FirstHalfRate(logs, start, actualDays);
      var second := SecondHalfRate(logs, start, actualDays);
      ReportFor(start, today, acts, logs)
        == Report(start, today, actualDays, byDay, Best(list), Worst(list), |acts|, |logs|, PerDay(|logs|, actualDays),
                  Percent(|logs|, totalExpected), DirectionOf(first, second), first, second)
  {
  }

  /** The counting tables of the report: every activity's entry once both
      loops are done, and the weekday columns. */
  method CountTables(acts: seq<StatActivity>, logs: seq<Log>, start: Date, n: nat)
    returns (stats: map<int, Stat>, dayTotal: seq<nat>, dayCompleted: seq<nat>)
    requires UniqueIds(acts)
    ensures forall j :: 0 <= j < |acts| ==> acts[j].id in stats && stats[acts[j].id] == FinalStat(acts[j], logs, start, n)
    ensures dayTotal == WeekdayTotalSeq(acts, start, n)
    ensures dayCompleted == DayCompletedSeq(logs, IdSet(acts))
  {
    stats := InitStats(acts);
    stats, dayTotal := CountExpected(acts, stats, start, n);
    stats, dayCompleted := CountCompletions(stats, logs);
  }

  /** The ranking of the activity list: the five best and the five worst. */
  method BestAndWorst(list: seq<Stat>) returns (best: seq<Stat>, worst: seq<Stat>)
    ensures best == Best(list) && worst == Worst(list)
  {
    var ranked := Ranked(list);
    best := if |ranked| >= 5 then ranked[..5] else ranked;
    worst := if |ranked| >= 5 then Reverse(ranked[|ranked| - 5..]) else Reverse(ranked);
  }

  /** The report over the window from start to today, built as the handler
      builds it. */
  method BuildReport(start: Date, today: Date, acts: seq<StatActivity>, logs: seq<Log>) returns (report: Report)
    requires UniqueIds(acts)
    ensures report == ReportFor(start, today, acts, logs)
  {
    var actualDays := today - start + 1;
    var n: nat := if actualDays > 0 then actualDays else 0;
    var stats, dayTotal, dayCompleted := CountTables(acts, logs, start, n);
    var byDay := BuildDayRows(dayCompleted, dayTotal);
    var list := ScheduledList(acts, stats, logs, start, n);
    var totalExpected := TotalExpected(acts, stats, start, n);
    var best, worst := BestAndWorst(list);
    var first := FirstHalfRate(logs, start, actualDays);
    var second := SecondHalfRate(logs, start, actualDays);
    report := Report(start, today, actualDays, byDay, best, worst, |acts|, |logs|, PerDay(|logs|, actualDays),
                     Percent(|logs|, totalExpected), DirectionOf(first, second), first, second);
    ReportAssembled(start, today, acts, logs, n, byDay, list, totalExpected);
  }

  /** get_statistics: validates `days`, places the window, selects its logs
      and builds the report. Activity ids are the table's primary key. */
  method GetStatistics(days: int, today: Date, acts: seq<StatActivity>, allLogs: seq<Log>) returns (r: Result<Report>)
    requires UniqueIds(acts)
    ensures r == StatisticsOf(days, today, acts, allLogs)
  {
    if days < 1 || days > 365 {
      return Failure(422);
    }
    var start := today - days;
    var firstLog := FirstLog(allLogs);
    if firstLog.Some? {
      start := Max(start, firstLog.value);
    }
    assert start == WindowStart(days, today, allLogs);
    var logs := Between(allLogs, start, today);
    var report := BuildReport(start, today, acts, logs);
    r := Ok(report);
  }
}
