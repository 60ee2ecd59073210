/** The score endpoints: whether an activity's day-set admits a date, the
    points and counts of a date range, the week and month ranges the daily,
    weekly and monthly scores cover, and the day-by-day score history. The
    store's reads are inputs: the active activities, and the completion
    logs joined with their activity's points. */
module Scores {
  import opened Common
  import opened Calendar
  import Summary
  import Analytics

  /** An active activity row as the score query reads it. */
  datatype ScoreActivity = ScoreActivity(id: int, points: int, daysOfWeek: Option<string>)

  /** A completion log joined with the points of its activity. */
  datatype PointLog = PointLog(activityId: int, completedOn: Date, points: int)

  datatype Period = Daily | Weekly | Monthly

  /** The score response; the percentage is kept as an exact ratio. */
  datatype Score = Score(
    period: Period,
    startDate: Date,
    endDate: Date,
    totalPoints: int,
    maxPossiblePoints: int,
    completedCount: nat,
    totalActivities: nat,
    percentage: Ratio)

  // ---------------------------------------------------------------------
  // Scheduling

  /** The score module's own due test: a missing day-set admits every date,
      otherwise the date's weekday abbreviation must be one of the pieces. */
  function IsScheduled(daysOfWeek: Option<string>, d: Date): (due: bool)
    ensures daysOfWeek.None? ==> due
    ensures daysOfWeek == Some("") ==> !due
    ensures daysOfWeek.Some? ==> (due <==> DayName(d) in Split(daysOfWeek.value))
  {
    match daysOfWeek
    case None => true
    case Some(days) => DayName(d) in Split(days)
  }

  /** The day-set schedule repeats every week. */
  lemma ScheduledWeekly(daysOfWeek: Option<string>, d: Date)
    ensures IsScheduled(daysOfWeek, d + 7) == IsScheduled(daysOfWeek, d)
  {
    WeekdayPeriodic(d, 1);
  }

  /** The score test agrees with the summary service's test for every
      activity that is not biweekly. */
  lemma AgreesWithSummary(daysOfWeek: Option<string>, d: Date, frequency: string, anchor: Option<Date>)
    requires frequency != "biweekly"
    ensures IsScheduled(daysOfWeek, d) == Summary.IsScheduledForDay(daysOfWeek, d, frequency, anchor)
  {
  }

  /** The score test agrees with the statistics' expected-day test on every
      day-set, the empty string included. */
  lemma AgreesWithStatistics(daysOfWeek: Option<string>, d: Date)
    ensures IsScheduled(daysOfWeek, d) == Analytics.ExpectedOn(daysOfWeek, d)
  {
  }

  // ---------------------------------------------------------------------
  // Points and counts over a range

  /** How many of the activities are scheduled on date d. */
  function DayScheduled(acts: seq<ScoreActivity>, d: Date): nat
  {
    if acts == [] then 0
    else DayScheduled(acts[..|acts| - 1], d) + (if IsScheduled(acts[|acts| - 1].daysOfWeek, d) then 1 else 0)
  }

  /** The signed points of the activities scheduled on date d. */
  function DayMax(acts: seq<ScoreActivity>, d: Date): int
  {
    if acts == [] then 0
    else DayMax(acts[..|acts| - 1], d) + (if IsScheduled(acts[|acts| - 1].daysOfWeek, d) then acts[|acts| - 1].points else 0)
  }

  /** The (day, activity) pairs scheduled over the n days from start. */
  function ScheduledCount(acts: seq<ScoreActivity>, start: Date, n: nat): nat
  {
    if n == 0 then 0 else ScheduledCount(acts, start, n - 1) + DayScheduled(acts, start + n - 1)
  }

  /** The signed points of the pairs scheduled over the n days from start. */
  function MaxPoints(acts: seq<ScoreActivity>, start: Date, n: nat): int
  {
    if n == 0 then 0 else MaxPoints(acts, start, n - 1) + DayMax(acts, start + n - 1)
  }

  /** The number of dates from start to end inclusive. */
  function DaysBetween(start: Date, end: Date): (n: nat)
    ensures start <= end ==> start + n - 1 == end
    ensures start > end ==> n == 0
  {
    if start <= end then end - start + 1 else 0
  }

  /** The logs dated from start to end inclusive, in order. */
  function InRange(logs: seq<PointLog>, start: Date, end: Date): (r: seq<PointLog>)
    ensures |r| <= |logs|
  {
    if logs == [] then []
    else
      var l := logs[|logs| - 1];
      InRange(logs[..|logs| - 1], start, end) + (if start <= l.completedOn <= end then [l] else [])
  }

  /** The logs in the range are exactly those dated from start to end. */
  lemma {:induction false} InRangeMembers(logs: seq<PointLog>, start: Date, end: Date)
    ensures forall l :: l in InRange(logs, start, end) <==> l in logs && start <= l.completedOn <= end
  {
    if logs != [] {
      InRangeMembers(logs[..|logs| - 1], start, end);
      assert logs == logs[..|logs| - 1] + [logs[|logs| - 1]];
    }
  }

  /** The sum of the logs' points. */
  function LogPoints(logs: seq<PointLog>): int
  {
    if logs == [] then 0 else LogPoints(logs[..|logs| - 1]) + logs[|logs| - 1].points
  }

  /** calculate_score: with no active activity every figure is zero; else
      the scheduled pairs and their signed points over start..end, the
      logs in the range and their points, and completed / scheduled * 100
      (0 when nothing is scheduled). */
  function ScoreOf(acts: seq<ScoreActivity>, logs: seq<PointLog>, start: Date, end: Date, period: Period): (s: Score)
    ensures s.period == period && s.startDate == start && s.endDate == end
    ensures acts == [] ==> s == Score(period, start, end, 0, 0, 0, 0, Ratio(0, 1))
  {
    if acts == [] then Score(period, start, end, 0, 0, 0, 0, Ratio(0, 1))
    else
      var n := DaysBetween(start, end);
      var total := ScheduledCount(acts, start, n);
      var inRange := InRange(logs, start, end);
      Score(period, start, end, LogPoints(inRange), MaxPoints(acts, start, n), |inRange|, total, Percent(|inRange|, total))
  }

  /** The percentage is 0 when nothing is scheduled, and otherwise
      completed / scheduled * 100. */
  lemma ScorePercentage(acts: seq<ScoreActivity>, logs: seq<PointLog>, start: Date, end: Date, period: Period, s: Score)
    requires s == ScoreOf(acts, logs, start, end, period)
    ensures s.totalActivities == 0 ==> s.percentage == Ratio(0, 1)
    ensures s.totalActivities > 0 ==> s.percentage.num * s.totalActivities == 100 * s.completedCount * s.percentage.den
  {
  }

  /** calculate_score, looping over the days and, per day, the activities. */
  method CalculateScore(acts: seq<ScoreActivity>, logs: seq<PointLog>, start: Date, end: Date, period: Period)
    returns (s: Score)
    ensures s == ScoreOf(acts, logs, start, end, period)
  {
    if |acts| == 0 {
      return Score(period, start, end, 0, 0, 0, 0, Ratio(0, 1));
    }
    var maxPossiblePoints := 0;
    var totalScheduled := 0;
    var current := start;
    while current <= end
      invariant start <= current <= Max(start, end + 1)
      invariant maxPossiblePoints == MaxPoints(acts, start, current - start)
      invariant totalScheduled == ScheduledCount(acts, start, current - start)
    {
      for j := 0 to |acts|
        invariant maxPossiblePoints == MaxPoints(acts, start, current - start) + DayMax(acts[..j], current)
        invariant totalScheduled == ScheduledCount(acts, start, current - start) + DayScheduled(acts[..j], current)
      {
        assert acts[..j + 1][..j] == acts[..j];
        if IsScheduled(acts[j].daysOfWeek, current) {
          maxPossiblePoints := maxPossiblePoints + acts[j].points;
          totalScheduled := totalScheduled + 1;
        }
      }
      assert acts[..|acts|] == acts;
      current := current + 1;
    }
    var inRange := InRange(logs, start, end);
    s := Score(period, start, end, LogPoints(inRange), maxPossiblePoints, |inRange|, totalScheduled,
               Percent(|inRange|, totalScheduled));
  }

  // ---------------------------------------------------------------------
  // Properties of the range figures

  /** At most every activity is scheduled on a day, and all of them are
      when none has a day-set. */
  lemma {:induction false} DayScheduledBounds(acts: seq<ScoreActivity>, d: Date)
    ensures DayScheduled(acts, d) <= |acts|
    ensures (forall i :: 0 <= i < |acts| ==> acts[i].daysOfWeek.None?) ==> DayScheduled(acts, d) == |acts|
  {
    if acts != [] {
      DayScheduledBounds(acts[..|acts| - 1], d);
    }
  }

  /** The points of all activities, scheduled or not. */
  function SumPoints(acts: seq<ScoreActivity>): int
  {
    if acts == [] then 0 else SumPoints(acts[..|acts| - 1]) + acts[|acts| - 1].points
  }

  /** With no day-sets, a day's maximum is the points of every activity. */
  lemma {:induction false} DayMaxEveryDay(acts: seq<ScoreActivity>, d: Date)
    requires forall i :: 0 <= i < |acts| ==> acts[i].daysOfWeek.None?
    ensures DayMax(acts, d) == SumPoints(acts)
  {
    if acts != [] {
      DayMaxEveryDay(acts[..|acts| - 1], d);
    }
  }

  /** Over n days at most n * |acts| pairs are scheduled; with no day-sets
      exactly that many, worth n times the points of all activities. */
  lemma {:induction false} ScheduledCountBounds(acts: seq<ScoreActivity>, start: Date, n: nat)
    ensures ScheduledCount(acts, start, n) <= n * |acts|
    ensures (forall i :: 0 <= i < |acts| ==> acts[i].daysOfWeek.None?) ==>
      ScheduledCount(acts, start, n) == n * |acts| && MaxPoints(acts, start, n) == n * SumPoints(acts)
  {
    if n > 0 {
      ScheduledCountBounds(acts, start, n - 1);
      DayScheduledBounds(acts, start + n - 1);
      assert n * |acts| == (n - 1) * |acts| + |acts|;
      assert n * SumPoints(acts) == (n - 1) * SumPoints(acts) + SumPoints(acts);
      if forall i :: 0 <= i < |acts| ==> acts[i].daysOfWeek.None? {
        DayMaxEveryDay(acts, start + n - 1);
      }
    }
  }

  /** The figures of n + m days are those of the first n days plus those
      of the m days after them. */
  lemma {:induction false} RangeSplit(acts: seq<ScoreActivity>, start: Date, n: nat, m: nat)
    ensures ScheduledCount(acts, start, n + m) == ScheduledCount(acts, start, n) + ScheduledCount(acts, start + n, m)
    ensures MaxPoints(acts, start, n + m) == MaxPoints(acts, start, n) + MaxPoints(acts, start + n, m)
  {
    if m > 0 {
      RangeSplit(acts, start, n, m - 1);
    }
  }

  /** RangeSplit for the dates start..mid and mid+1..end. */
  lemma DaysSplit(acts: seq<ScoreActivity>, start: Date, mid: Date, end: Date)
    requires start <= mid < end
    ensures ScheduledCount(acts, start, DaysBetween(start, end))
      == ScheduledCount(acts, start, DaysBetween(start, mid)) + ScheduledCount(acts, mid + 1, DaysBetween(mid + 1, end))
    ensures MaxPoints(acts, start, DaysBetween(start, end))
      == MaxPoints(acts, start, DaysBetween(start, mid)) + MaxPoints(acts, mid + 1, DaysBetween(mid + 1, end))
  {
    RangeSplit(acts, start, mid - start + 1, end - mid);
  }

  /** The logs of start..end are those of start..mid followed by those of
      mid+1..end, in count and in points. */
  lemma {:induction false} LogsSplit(logs: seq<PointLog>, start: Date, mid: Date, end: Date)
    requires start <= mid <= end
    ensures |InRange(logs, start, end)| == |InRange(logs, start, mid)| + |InRange(logs, mid + 1, end)|
    ensures LogPoints(InRange(logs, start, end)) == LogPoints(InRange(logs, start, mid)) + LogPoints(InRange(logs, mid + 1, end))
  {
    if logs != [] {
      var init := logs[..|logs| - 1];
      LogsSplit(init, start, mid, end);
      var l := logs[|logs| - 1];
      var ea := if start <= l.completedOn <= end then [l] else [];
      var eb := if start <= l.completedOn <= mid then [l] else [];
      var ec := if mid + 1 <= l.completedOn <= end then [l] else [];
      LogPointsAppend(InRange(init, start, end), ea);
      LogPointsAppend(InRange(init, start, mid), eb);
      LogPointsAppend(InRange(init, mid + 1, end), ec);
      assert LogPoints([l]) == l.points by {
        assert [l][..0] == [];
      }
    }
  }

  lemma {:induction false} LogPointsAppend(s: seq<PointLog>, t: seq<PointLog>)
    requires |t| <= 1
    ensures LogPoints(s + t) == LogPoints(s) + LogPoints(t)
  {
    if |t| == 1 {
      assert (s + t)[..|s + t| - 1] == s;
      assert t[..0] == [];
    } else {
      assert s + t == s;
    }
  }

  /** The figures of a score with at least one active activity. */
  lemma ScoreFields(acts: seq<ScoreActivity>, logs: seq<PointLog>, start: Date, end: Date, p: Period, s: Score)
    requires acts != [] && s == ScoreOf(acts, logs, start, end, p)
    ensures s.totalActivities == ScheduledCount(acts, start, DaysBetween(start, end))
    ensures s.maxPossiblePoints == MaxPoints(acts, start, DaysBetween(start, end))
    ensures s.completedCount == |InRange(logs, start, end)|
    ensures s.totalPoints == LogPoints(InRange(logs, start, end))
  {
  }

  /** A score over start..end adds up from the scores of start..mid and
      mid+1..end: scheduled pairs, their points, completions and points. */
  lemma ScoreSplit(acts: seq<ScoreActivity>, logs: seq<PointLog>, start: Date, mid: Date, end: Date, p: Period,
                   whole: Score, first: Score, second: Score)
    requires start <= mid < end
    requires whole == ScoreOf(acts, logs, start, end, p)
    requires first == ScoreOf(acts, logs, start, mid, p) && second == ScoreOf(acts, logs, mid + 1, end, p)
    ensures whole.totalActivities == first.totalActivities + second.totalActivities
    ensures whole.maxPossiblePoints == first.maxPossiblePoints + second.maxPossiblePoints
    ensures whole.completedCount == first.completedCount + second.completedCount
    ensures whole.totalPoints == first.totalPoints + second.totalPoints
  {
    if acts != [] {
      ScoreFields(acts, logs, start, end, p, whole);
      ScoreFields(acts, logs, start, mid, p, first);
      ScoreFields(acts, logs, mid + 1, end, p, second);
      DaysSplit(acts, start, mid, end);
      LogsSplit(logs, start, mid, end);
    }
  }

  // ---------------------------------------------------------------------
  // Week and month ranges

  /** The last date Python's datetime can represent, 9999-12-31. */
  const MaxOrdinal: Date := Ordinal(MaxYear, 12, 31)

  /** A date Python's datetime can represent. */
  predicate ValidOrdinal(d: Date)
  {
    1 <= d <= MaxOrdinal
  }

  /** get_weekly_score's range: the Monday of d's week to six days later.
      Past 9999-12-31 the end date overflows and the request fails (500). */
  function WeekRange(d: Date): (r: Result<(Date, Date)>)
    requires ValidOrdinal(d)
    ensures r.Ok? <==> d - Weekday(d) + 6 <= MaxOrdinal
    ensures r.Failure? ==> r.status == 500
    ensures r.Ok? ==> var (s, e) := r.value;
      Weekday(s) == 0 && s <= d <= e && e == s + 6 && ValidOrdinal(s) && ValidOrdinal(e)
  {
    var s := d - Weekday(d);
    if s + 6 > MaxOrdinal then Failure(500)
    else
      ModUnique(s + 6, (d + 6) / 7, 0);
      Ok((s, s + 6))
  }

  /** get_monthly_score's range: the first to the last day of the month,
      computed as the day before the first of the next month. An invalid
      year or month, and December 9999 whose next month does not exist,
      fail (500). */
  function MonthRange(year: int, month: int): (r: Result<(Date, Date)>)
    ensures r.Ok? <==> ValidMonth(month) && MinYear <= year <= MaxYear && !(month == 12 && year == MaxYear)
    ensures r.Failure? ==> r.status == 500
    ensures r.Ok? ==>
      && r.value.0 == Ordinal(year, month, 1)
      && r.value.1 == Ordinal(year, month, DaysInMonth(year, month))
      && r.value.1 - r.value.0 + 1 == DaysInMonth(year, month)
  {
    if !ValidMonth(month) || year < MinYear || year > MaxYear then Failure(500)
    else if month == 12 then
      if year == MaxYear then Failure(500)
      else
        YearEnd(year);
        Ok((Ordinal(year, month, 1), Ordinal(year + 1, 1, 1) - 1))
    else
      MonthStep(year, month);
      Ok((Ordinal(year, month, 1), Ordinal(year, month + 1, 1) - 1))
  }

  /** get_daily_score. */
  method GetDailyScore(acts: seq<ScoreActivity>, logs: seq<PointLog>, d: Date) returns (s: Score)
    ensures s == ScoreOf(acts, logs, d, d, Daily)
    ensures s.totalActivities <= |acts|
  {
    s := CalculateScore(acts, logs, d, d, Daily);
    ScheduledCountBounds(acts, d, 1);
  }

  /** get_weekly_score: the score of d's Monday-to-Sunday week. */
  method GetWeeklyScore(acts: seq<ScoreActivity>, logs: seq<PointLog>, d: Date) returns (r: Result<Score>)
    requires ValidOrdinal(d)
    ensures r.Failure? <==> WeekRange(d).Failure?
    ensures r.Failure? ==> r.status == 500
    ensures r.Ok? ==>
      && r.value == ScoreOf(acts, logs, WeekRange(d).value.0, WeekRange(d).value.1, Weekly)
      && r.value.totalActivities <= 7 * |acts|
  {
    var range := WeekRange(d);
    if range.Failure? {
      return Failure(500);
    }
    var s := CalculateScore(acts, logs, range.value.0, range.value.1, Weekly);
    ScheduledCountBounds(acts, range.value.0, 7);
    return Ok(s);
  }

  /** get_monthly_score: the score of the given calendar month. */
  method GetMonthlyScore(acts: seq<ScoreActivity>, logs: seq<PointLog>, year: int, month: int) returns (r: Result<Score>)
    ensures r.Failure? <==> MonthRange(year, month).Failure?
    ensures r.Failure? ==> r.status == 500
    ensures r.Ok? ==> r.value == ScoreOf(acts, logs, MonthRange(year, month).value.0, MonthRange(year, month).value.1, Monthly)
  {
    var range := MonthRange(year, month);
    if range.Failure? {
      return Failure(500);
    }
    var s := CalculateScore(acts, logs, range.value.0, range.value.1, Monthly);
    return Ok(s);
  }

  // ---------------------------------------------------------------------
  // Score history

  /** One history entry: a day's date and its score figures. */
  datatype HistoryEntry = HistoryEntry(
    date: Date,
    totalPoints: int,
    maxPossiblePoints: int,
    percentage: Ratio,
    completedCount: nat,
    totalActivities: nat)

  function EntryOf(s: Score): HistoryEntry
  {
    HistoryEntry(s.startDate, s.totalPoints, s.maxPossiblePoints, s.percentage, s.completedCount, s.totalActivities)
  }

  /** The history entry of date d: the figures of d's daily score. */
  function DailyEntry(acts: seq<ScoreActivity>, logs: seq<PointLog>, d: Date): (e: HistoryEntry)
    ensures e.date == d
  {
    EntryOf(ScoreOf(acts, logs, d, d, Daily))
  }

  /** get_score_history: 422 unless 1 <= days <= 90; else the daily scores
      of the `days` days ending today, oldest first. */
  function ScoreHistoryOf(acts: seq<ScoreActivity>, logs: seq<PointLog>, days: int, today: Date): (r: Result<seq<HistoryEntry>>)
    ensures r.Failure? <==> days < 1 || days > 90
    ensures r.Failure? ==> r.status == 422
    ensures r.Ok? ==>
      && |r.value| == days && r.value[|r.value| - 1].date == today
      && forall k :: 0 <= k < |r.value| - 1 ==> r.value[k + 1].date == r.value[k].date + 1
  {
    if days < 1 || days > 90 then Failure(422) else Ok(DailyEntries(acts, logs, today - days + 1, days))
  }

  /** The entries of the n days from start, oldest first. */
  function DailyEntries(acts: seq<ScoreActivity>, logs: seq<PointLog>, start: Date, n: nat): (h: seq<HistoryEntry>)
    ensures |h| == n
    ensures forall k :: 0 <= k < n ==> h[k] == DailyEntry(acts, logs, start + k) && h[k].date == start + k
  {
    seq(n, k requires 0 <= k < n => DailyEntry(acts, logs, start + k))
  }

  method GetScoreHistory(acts: seq<ScoreActivity>, logs: seq<PointLog>, days: int, today: Date)
    returns (r: Result<seq<HistoryEntry>>)
    ensures r == ScoreHistoryOf(acts, logs, days, today)
  {
    if days < 1 || days > 90 {
      return Failure(422);
    }
    var history: seq<HistoryEntry> := [];
    var i := days - 1;
    while i >= 0
      invariant -1 <= i <= days - 1
      invariant |history| == days - 1 - i
      invariant forall k :: 0 <= k < |history| ==> history[k] == DailyEntry(acts, logs, today - days + 1 + k)
    {
      var day := today - i;
      var score := CalculateScore(acts, logs, day, day, Daily);
      history := history + [EntryOf(score)];
      i := i - 1;
    }
    assert history == ScoreHistoryOf(acts, logs, days, today).value;
    return Ok(history);
  }

  /** A run of consecutive daily entries from start adds up to the score
      of its whole range. */
  lemma DailyTotals(acts: seq<ScoreActivity>, logs: seq<PointLog>, start: Date, h: seq<HistoryEntry>)
    requires |h| >= 1 && forall k :: 0 <= k < |h| ==> h[k] == DailyEntry(acts, logs, start + k)
    ensures SumScheduled(h) == ScoreOf(acts, logs, start, start + |h| - 1, Daily).totalActivities
    ensures SumCompleted(h) == ScoreOf(acts, logs, start, start + |h| - 1, Daily).completedCount
  {
    DailyCounts(acts, logs, start, h);
    DailyScheduled(acts, start, h);
    DailyCompleted(acts, logs, start, h);
    RangeCounts(acts, logs, start, start + |h| - 1);
  }

  /** The scheduled pairs a score over start..end counts. */
  function RangeScheduled(acts: seq<ScoreActivity>, start: Date, end: Date): nat
  {
    if acts == [] then 0 else ScheduledCount(acts, start, DaysBetween(start, end))
  }

  /** The completions a score over start..end counts. */
  function RangeCompleted(acts: seq<ScoreActivity>, logs: seq<PointLog>, start: Date, end: Date): nat
  {
    if acts == [] then 0 else |InRange(logs, start, end)|
  }

  lemma RangeCounts(acts: seq<ScoreActivity>, logs: seq<PointLog>, start: Date, end: Date)
    ensures ScoreOf(acts, logs, start, end, Daily).totalActivities == RangeScheduled(acts, start, end)
    ensures ScoreOf(acts, logs, start, end, Daily).completedCount == RangeCompleted(acts, logs, start, end)
  {
  }

  /** Each daily entry carries its day's scheduled and completed counts. */
  lemma DailyCounts(acts: seq<ScoreActivity>, logs: seq<PointLog>, start: Date, h: seq<HistoryEntry>)
    requires forall k :: 0 <= k < |h| ==> h[k] == DailyEntry(acts, logs, start + k)
    ensures forall k :: 0 <= k < |h| ==>
      h[k].totalActivities == RangeScheduled(acts, start + k, start + k)
      && h[k].completedCount == RangeCompleted(acts, logs, start + k, start + k)
  {
    forall k | 0 <= k < |h|
      ensures h[k].totalActivities == RangeScheduled(acts, start + k, start + k)
      ensures h[k].completedCount == RangeCompleted(acts, logs, start + k, start + k)
    {
      RangeCounts(acts, logs, start + k, start + k);
    }
  }

  lemma {:induction false} DailyScheduled(acts: seq<ScoreActivity>, start: Date, h: seq<HistoryEntry>)
    requires |h| >= 1 && forall k :: 0 <= k < |h| ==> h[k].totalActivities == RangeScheduled(acts, start + k, start + k)
    ensures SumScheduled(h) == RangeScheduled(acts, start, start + |h| - 1)
    decreases |h|
  {
    if |h| > 1 {
      var last := start + |h| - 1;
      DailyScheduled(acts, start, h[..|h| - 1]);
      ScheduledStep(acts, start, last, SumScheduled(h[..|h| - 1]), h[|h| - 1].totalActivities);
    }
  }

  /** The same for the scheduled pairs. */
  lemma ScheduledStep(acts: seq<ScoreActivity>, start: Date, last: Date, before: int, day: int)
    requires start < last
    requires before == RangeScheduled(acts, start, last - 1) && day == RangeScheduled(acts, last, last)
    ensures before + day == RangeScheduled(acts, start, last)
  {
    DaysSplit(acts, start, last - 1, last);
  }

  lemma {:induction false} DailyCompleted(acts: seq<ScoreActivity>, logs: seq<PointLog>, start: Date, h: seq<HistoryEntry>)
    requires |h| >= 1 && forall k :: 0 <= k < |h| ==> h[k].completedCount == RangeCompleted(acts, logs, start + k, start + k)
    ensures SumCompleted(h) == RangeCompleted(acts, logs, start, start + |h| - 1)
    decreases |h|
  {
    if |h| > 1 {
      var last := start + |h| - 1;
      DailyCompleted(acts, logs, start, h[..|h| - 1]);
      CompletedStep(acts, logs, start, last, SumCompleted(h[..|h| - 1]), h[|h| - 1].completedCount);
    }
  }

  /** Adding the last day's completions to those of the days before it
      gives the completions of the whole range. */
  lemma CompletedStep(acts: seq<ScoreActivity>, logs: seq<PointLog>, start: Date, last: Date, before: int, day: int)
    requires start < last
    requires before == RangeCompleted(acts, logs, start, last - 1) && day == RangeCompleted(acts, logs, last, last)
    ensures before + day == RangeCompleted(acts, logs, start, last)
  {
    LogsSplit(logs, start, last - 1, last);
  }

  /** The history's totals are the score of its whole window. */
  lemma HistoryTotals(acts: seq<ScoreActivity>, logs: seq<PointLog>, days: int, today: Date, h: seq<HistoryEntry>)
    requires ScoreHistoryOf(acts, logs, days, today) == Ok(h)
    ensures SumScheduled(h) == ScoreOf(acts, logs, today - days + 1, today, Daily).totalActivities
    ensures SumCompleted(h) == ScoreOf(acts, logs, today - days + 1, today, Daily).completedCount
  {
    DailyTotals(acts, logs, today - days + 1, h);
  }

  function SumScheduled(h: seq<HistoryEntry>): nat
  {
    if h == [] then 0 else SumScheduled(h[..|h| - 1]) + h[|h| - 1].totalActivities
  }

  function SumCompleted(h: seq<HistoryEntry>): nat
  {
    if h == [] then 0 else SumCompleted(h[..|h| - 1]) + h[|h| - 1].completedCount
  }
}
