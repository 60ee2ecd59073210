/** The exercise progress report: the sets of one exercise over the last
    `days` days, grouped by the date they were completed on, one entry per
    date with the day's set count, rep and duration totals and maxima, in
    date order, and a summary over the whole window. */
module Exercises {
  import opened Common
  import opened Sorting

  /** An exercise row: its owner and whether it is still active. */
  datatype ExerciseRow = ExerciseRow(id: int, userId: int, isActive: bool)

  /** One recorded set of the exercise: the date part of its completion
      time, its reps and duration (NULL allowed) and its weight unit. */
  datatype SetRow = SetRow(completedOn: Date, reps: Option<int>, durationSeconds: Option<int>, weightUnit: Option<string>)

  /** A day's progress entry. */
  datatype DayStats = DayStats(
    date: Date,
    totalSets: nat,
    totalReps: int,
    totalDuration: int,
    maxReps: int,
    maxDuration: int,
    weightUnit: Option<string>)

  datatype ProgressSummary = ProgressSummary(totalWorkouts: nat, totalSets: int, totalReps: int, totalDuration: int)

  datatype Progress = Progress(startDate: Date, endDate: Date, progress: seq<DayStats>, summary: ProgressSummary)

  // ---------------------------------------------------------------------
  // Per-set contributions

  /** Python truthiness of a nullable integer column: neither NULL nor 0. */
  predicate Truthy(x: Option<int>)
  {
    x.Some? && x.value != 0
  }

  /** What a set adds to the day's rep total: its reps when truthy. */
  function RepsOf(s: SetRow): int
  {
    if Truthy(s.reps) then s.reps.value else 0
  }

  /** What a set adds to the day's duration total: its duration when truthy. */
  function DurationOf(s: SetRow): int
  {
    if Truthy(s.durationSeconds) then s.durationSeconds.value else 0
  }

  function One(s: SetRow): int
  {
    1
  }

  // ---------------------------------------------------------------------
  // Grouping by day

  /** The entry a day starts with, taking the weight unit of its first set. */
  function NewDay(s: SetRow): DayStats
  {
    DayStats(s.completedOn, 0, 0, 0, 0, 0, s.weightUnit)
  }

  /** The entry after counting one more set of its day. */
  function AddSet(st: DayStats, s: SetRow): DayStats
  {
    st.(totalSets := st.totalSets + 1,
        totalReps := st.totalReps + RepsOf(s),
        maxReps := if Truthy(s.reps) then Max(st.maxReps, s.reps.value) else st.maxReps,
        totalDuration := st.totalDuration + DurationOf(s),
        maxDuration := if Truthy(s.durationSeconds) then Max(st.maxDuration, s.durationSeconds.value) else st.maxDuration)
  }

  /** The day table after the sets, in order: each set creates its day's
      entry if needed and is then counted into it. */
  function Grouped(sets: seq<SetRow>): map<Date, DayStats>
  {
    if sets == [] then map[]
    else
      var m := Grouped(sets[..|sets| - 1]);
      var s := sets[|sets| - 1];
      m[s.completedOn := AddSet(if s.completedOn in m then m[s.completedOn] else NewDay(s), s)]
  }

  /** The sum of f over the sets completed on day d. */
  function SumOn(sets: seq<SetRow>, d: Date, f: SetRow -> int): int
  {
    if sets == [] then 0
    else SumOn(sets[..|sets| - 1], d, f) + (if sets[|sets| - 1].completedOn == d then f(sets[|sets| - 1]) else 0)
  }

  /** The sum of f over all the sets. */
  function SumAll(sets: seq<SetRow>, f: SetRow -> int): int
  {
    if sets == [] then 0 else SumAll(sets[..|sets| - 1], f) + f(sets[|sets| - 1])
  }

  /** The dates of the sets, in order. */
  function Dates(sets: seq<SetRow>): (r: seq<Date>)
    ensures |r| == |sets| && forall i :: 0 <= i < |sets| ==> r[i] == sets[i].completedOn
  {
    seq(|sets|, i requires 0 <= i < |sets| => sets[i].completedOn)
  }

  /** The index of the first set completed on d. */
  function FirstOn(sets: seq<SetRow>, d: Date): (i: nat)
    requires d in Dates(sets)
    ensures i < |sets| && sets[i].completedOn == d
    ensures forall j :: 0 <= j < i ==> sets[j].completedOn != d
  {
    if sets[0].completedOn == d then 0
    else
      var k :| 0 <= k < |sets| && Dates(sets)[k] == d;
      assert Dates(sets[1..])[k - 1] == d;
      1 + FirstOn(sets[1..], d)
  }

  /** The day table has an entry for exactly the dates some set was
      completed on. */
  lemma {:induction false} GroupedKeys(sets: seq<SetRow>)
    ensures forall d :: d in Grouped(sets) <==> d in Dates(sets)
  {
    if sets != [] {
      var init := sets[..|sets| - 1];
      GroupedKeys(init);
      assert Dates(sets) == Dates(init) + [sets[|sets| - 1].completedOn];
    }
  }

  /** A day's entry is for that day, counts its sets, adds up their truthy
      reps and durations, and keeps maxima that are at least 0. */
  lemma {:induction false} GroupedTotals(sets: seq<SetRow>, d: Date)
    requires d in Grouped(sets)
    ensures Grouped(sets)[d].date == d
    ensures Grouped(sets)[d].totalSets == SumOn(sets, d, One)
    ensures Grouped(sets)[d].totalReps == SumOn(sets, d, RepsOf)
    ensures Grouped(sets)[d].totalDuration == SumOn(sets, d, DurationOf)
    ensures Grouped(sets)[d].maxReps >= 0 && Grouped(sets)[d].maxDuration >= 0
  {
    var init := sets[..|sets| - 1];
    if d in Grouped(init) {
      GroupedTotals(init, d);
    } else {
      GroupedKeys(init);
      NoneOn(init, d, One);
      NoneOn(init, d, RepsOf);
      NoneOn(init, d, DurationOf);
    }
  }

  /** A day with no set sums to 0. */
  lemma {:induction false} NoneOn(sets: seq<SetRow>, d: Date, f: SetRow -> int)
    requires d !in Dates(sets)
    ensures SumOn(sets, d, f) == 0
  {
    if sets != [] {
      var init := sets[..|sets| - 1];
      assert Dates(sets) == Dates(init) + [sets[|sets| - 1].completedOn];
      NoneOn(init, d, f);
    }
  }

  /** A day's maxima are at least each truthy reps and duration of its sets. */
  lemma {:induction false} GroupedMax(sets: seq<SetRow>, i: nat)
    requires i < |sets|
    ensures sets[i].completedOn in Grouped(sets)
    ensures Truthy(sets[i].reps) ==> Grouped(sets)[sets[i].completedOn].maxReps >= sets[i].reps.value
    ensures Truthy(sets[i].durationSeconds) ==> Grouped(sets)[sets[i].completedOn].maxDuration >= sets[i].durationSeconds.value
  {
    var init := sets[..|sets| - 1];
    if i < |init| {
      assert init[i] == sets[i];
      GroupedMax(init, i);
    }
  }

  /** A day's weight unit is that of the first set of the day. */
  lemma {:induction false} GroupedUnit(sets: seq<SetRow>, d: Date)
    requires d in Dates(sets)
    ensures d in Grouped(sets) && Grouped(sets)[d].weightUnit == sets[FirstOn(sets, d)].weightUnit
  {
    GroupedKeys(sets);
    var init := sets[..|sets| - 1];
    GroupedKeys(init);
    if d in Dates(init) {
      GroupedUnit(init, d);
      var k := FirstOn(init, d);
      assert sets[k] == init[k];
      FirstOnUnique(sets, d, k);
    } else {
      assert forall j :: 0 <= j < |init| ==> init[j].completedOn != d by {
        forall j | 0 <= j < |init| ensures init[j].completedOn != d {
          assert Dates(init)[j] == init[j].completedOn;
        }
      }
      FirstOnUnique(sets, d, |sets| - 1);
    }
  }

  /** The first index on d is the one before which no set is on d. */
  lemma FirstOnUnique(sets: seq<SetRow>, d: Date, k: nat)
    requires k < |sets| && sets[k].completedOn == d
    requires forall j :: 0 <= j < k ==> sets[j].completedOn != d
    ensures d in Dates(sets) && FirstOn(sets, d) == k
  {
    assert Dates(sets)[k] == d;
    var f := FirstOn(sets, d);
    assert !(f < k) && !(k < f);
  }

  /** The grouping loop of get_exercise_progress. */
  method GroupByDay(sets: seq<SetRow>) returns (daily: map<Date, DayStats>)
    ensures daily == Grouped(sets)
  {
    daily := map[];
    for i := 0 to |sets|
      invariant daily == Grouped(sets[..i])
    {
      assert sets[..i + 1][..i] == sets[..i];
      var s := sets[i];
      if s.completedOn !in daily {
        daily := daily[s.completedOn := NewDay(s)];
      }
      var stats := daily[s.completedOn];
      stats := stats.(totalSets := stats.totalSets + 1);
      if Truthy(s.reps) {
        stats := stats.(totalReps := stats.totalReps + s.reps.value, maxReps := Max(stats.maxReps, s.reps.value));
      }
      if Truthy(s.durationSeconds) {
        stats := stats.(totalDuration := stats.totalDuration + s.durationSeconds.value,
                        maxDuration := Max(stats.maxDuration, s.durationSeconds.value));
      }
      daily := daily[s.completedOn := stats];
    }
    assert sets[..|sets|] == sets;
  }

  // ---------------------------------------------------------------------
  // The sorted list and the summary

  /** The entries of the day table for the dates of ks, in that order. */
  function ProgressList(daily: map<Date, DayStats>, ks: seq<Date>): (p: seq<DayStats>)
    requires forall i :: 0 <= i < |ks| ==> ks[i] in daily
    ensures |p| == |ks| && forall i :: 0 <= i < |ks| ==> p[i] == daily[ks[i]]
  {
    seq(|ks|, i requires 0 <= i < |ks| => daily[ks[i]])
  }

  /** The day table's entries sorted by date. */
  function SortedProgress(sets: seq<SetRow>): (p: seq<DayStats>)
  {
    GroupedKeys(sets);
    ProgressList(Grouped(sets), SortDistinctAsc(Dates(sets)))
  }

  /** The sum over the entries of a field. */
  function SumStats(p: seq<DayStats>, g: DayStats -> int): int
  {
    if p == [] then 0 else SumStats(p[..|p| - 1], g) + g(p[|p| - 1])
  }

  function SetsField(st: DayStats): int
  {
    st.totalSets
  }

  function RepsField(st: DayStats): int
  {
    st.totalReps
  }

  function DurationField(st: DayStats): int
  {
    st.totalDuration
  }

  /** The days from start to end inclusive, as DATE(completed_at) compares them. */
  function InWindow(sets: seq<SetRow>, start: Date, end: Date): (r: seq<SetRow>)
    ensures |r| <= |sets|
    ensures forall s :: s in r <==> s in sets && start <= s.completedOn <= end
  {
    if sets == [] then []
    else
      var s := sets[|sets| - 1];
      InWindow(sets[..|sets| - 1], start, end) + (if start <= s.completedOn <= end then [s] else [])
  }

  /** get_exercise_progress: 422 unless 1 <= days <= 365, 404 unless the
      exercise is active and the user's; else the report on the window of
      `days` days ending today. The rows are the exercise's sets in the
      user's sessions, in completion order. */
  function ExerciseProgressOf(exercises: map<int, ExerciseRow>, user: int, exerciseId: int, days: int, today: Date,
                              rows: seq<SetRow>): (r: Result<Progress>)
    ensures r.Failure? <==> days < 1 || days > 365 || !Owned(exercises, user, exerciseId)
    ensures r.Failure? ==> r.status == (if days < 1 || days > 365 then 422 else 404)
    ensures r.Ok? ==> r.value.endDate == today && r.value.endDate - r.value.startDate + 1 == days
  {
    if days < 1 || days > 365 then Failure(422)
    else if !Owned(exercises, user, exerciseId) then Failure(404)
    else
      Ok(Report(today - (days - 1), today, rows))
  }

  /** The report on the sets dated from start to end. */
  function Report(start: Date, end: Date, rows: seq<SetRow>): (r: Progress)
    ensures r.startDate == start && r.endDate == end
  {
    var sets := InWindow(rows, start, end);
    var p := SortedProgress(sets);
    Progress(start, end, p,
      ProgressSummary(|Grouped(sets)|, SumStats(p, SetsField), SumStats(p, RepsField), SumStats(p, DurationField)))
  }

  /** The exercise exists, is active and belongs to the user. */
  predicate Owned(exercises: map<int, ExerciseRow>, user: int, exerciseId: int)
  {
    exerciseId in exercises && exercises[exerciseId].isActive && exercises[exerciseId].userId == user
  }

  lemma ProgressOfOwned(exercises: map<int, ExerciseRow>, user: int, exerciseId: int, days: int, today: Date,
                        rows: seq<SetRow>)
    requires 1 <= days <= 365 && Owned(exercises, user, exerciseId)
    ensures ExerciseProgressOf(exercises, user, exerciseId, days, today, rows) == Ok(Report(today - (days - 1), today, rows))
  {
  }

  /** The filtering, grouping, sorting and summing of get_exercise_progress
      on the window from start to end. */
  method ReportOn(start: Date, end: Date, rows: seq<SetRow>) returns (report: Progress)
    ensures report == Report(start, end, rows)
  {
    var sets := InWindow(rows, start, end);
    var daily := GroupByDay(sets);
    GroupedKeys(sets);
    var p := ProgressList(daily, SortDistinctAsc(Dates(sets)));
    report := Progress(start, end, p,
      ProgressSummary(|daily|, SumStats(p, SetsField), SumStats(p, RepsField), SumStats(p, DurationField)));
  }

  method GetExerciseProgress(exercises: map<int, ExerciseRow>, user: int, exerciseId: int, days: int, today: Date,
                             rows: seq<SetRow>) returns (r: Result<Progress>)
    ensures r == ExerciseProgressOf(exercises, user, exerciseId, days, today, rows)
  {
    if days < 1 || days > 365 {
      return Failure(422);
    }
    if !Owned(exercises, user, exerciseId) {
      return Failure(404);
    }
    var report := ReportOn(today - (days - 1), today, rows);
    ProgressOfOwned(exercises, user, exerciseId, days, today, rows);
    return Ok(report);
  }

  // ---------------------------------------------------------------------
  // Properties of the report

  /** Summing f day by day over distinct days covering every set's date
      gives the sum of f over all the sets. */
  lemma {:induction false} PartitionSum(ks: seq<Date>, sets: seq<SetRow>, f: SetRow -> int)
    requires Distinct(ks) && forall i :: 0 <= i < |sets| ==> sets[i].completedOn in ks
    ensures SumOver(ks, sets, f) == SumAll(sets, f)
  {
    if sets != [] {
      var init := sets[..|sets| - 1];
      var s := sets[|sets| - 1];
      assert forall i :: 0 <= i < |init| ==> init[i].completedOn in ks by {
        forall i | 0 <= i < |init| ensures init[i].completedOn in ks {
          assert init[i] == sets[i];
        }
      }
      PartitionSum(ks, init, f);
      SumOverStep(ks, sets, f);
      OnlyOnce(ks, s.completedOn, f(s));
    } else {
      SumOverEmpty(ks, f);
    }
  }

  /** Sum over the days of ks of the sums of f per day. */
  function SumOver(ks: seq<Date>, sets: seq<SetRow>, f: SetRow -> int): int
  {
    if ks == [] then 0 else SumOver(ks[..|ks| - 1], sets, f) + SumOn(sets, ks[|ks| - 1], f)
  }

  /** x contributed on its own day of ks, as a sum over ks. */
  function Indicator(ks: seq<Date>, d: Date, x: int): int
  {
    if ks == [] then 0 else Indicator(ks[..|ks| - 1], d, x) + (if ks[|ks| - 1] == d then x else 0)
  }

  lemma {:induction false} SumOverEmpty(ks: seq<Date>, f: SetRow -> int)
    ensures SumOver(ks, [], f) == 0
  {
    if ks != [] {
      SumOverEmpty(ks[..|ks| - 1], f);
    }
  }

  lemma {:induction false} SumOverStep(ks: seq<Date>, sets: seq<SetRow>, f: SetRow -> int)
    requires sets != []
    ensures SumOver(ks, sets, f) == SumOver(ks, sets[..|sets| - 1], f) + Indicator(ks, sets[|sets| - 1].completedOn, f(sets[|sets| - 1]))
  {
    if ks != [] {
      SumOverStep(ks[..|ks| - 1], sets, f);
    }
  }

  lemma {:induction false} OnlyOnce(ks: seq<Date>, d: Date, x: int)
    requires Distinct(ks) && d in ks
    ensures Indicator(ks, d, x) == x
  {
    var init := ks[..|ks| - 1];
    if ks[|ks| - 1] == d {
      NotThere(init, d, x);
    } else {
      assert d in init;
      OnlyOnce(init, d, x);
    }
  }

  lemma {:induction false} NotThere(ks: seq<Date>, d: Date, x: int)
    requires d !in ks
    ensures Indicator(ks, d, x) == 0
  {
    if ks != [] {
      NotThere(ks[..|ks| - 1], d, x);
    }
  }

  /** A sum over the entries equals the per-day sums of the days they are for. */
  lemma {:induction false} SumStatsOver(p: seq<DayStats>, ks: seq<Date>, sets: seq<SetRow>, g: DayStats -> int, f: SetRow -> int)
    requires |p| == |ks| && forall i :: 0 <= i < |p| ==> g(p[i]) == SumOn(sets, ks[i], f)
    ensures SumStats(p, g) == SumOver(ks, sets, f)
  {
    if p != [] {
      SumStatsOver(p[..|p| - 1], ks[..|ks| - 1], sets, g, f);
    }
  }

  /** The sorted list holds one entry per date with a set, in strictly
      ascending date order, each the day table's entry for its date. */
  lemma ProgressOrdered(sets: seq<SetRow>)
    ensures var p := SortedProgress(sets);
      && (forall i, j :: 0 <= i < j < |p| ==> p[i].date < p[j].date)
      && (forall i :: 0 <= i < |sets| ==> exists j :: 0 <= j < |p| && p[j].date == sets[i].completedOn)
      && (forall j :: 0 <= j < |p| ==> p[j].date in Grouped(sets) && p[j] == Grouped(sets)[p[j].date])
      && (forall j :: 0 <= j < |p| ==> p[j].date in Dates(sets))
  {
    GroupedKeys(sets);
    var ks := SortDistinctAsc(Dates(sets));
    var p := SortedProgress(sets);
    forall j | 0 <= j < |p| ensures p[j].date == ks[j] {
      GroupedTotals(sets, ks[j]);
    }
    forall i | 0 <= i < |sets| ensures exists j :: 0 <= j < |p| && p[j].date == sets[i].completedOn {
      assert Dates(sets)[i] == sets[i].completedOn;
      assert Dates(sets)[i] in Dates(sets);
      assert sets[i].completedOn in ks;
      var j :| 0 <= j < |ks| && ks[j] == sets[i].completedOn;
      assert p[j].date == ks[j];
    }
  }

  /** The summary counts the dates and adds up to the sets, the truthy
      reps and the truthy durations of the whole window. */
  lemma ProgressTotals(sets: seq<SetRow>)
    ensures |Grouped(sets)| == |SortedProgress(sets)|
    ensures SumStats(SortedProgress(sets), SetsField) == |sets|
    ensures SumStats(SortedProgress(sets), RepsField) == SumAll(sets, RepsOf)
    ensures SumStats(SortedProgress(sets), DurationField) == SumAll(sets, DurationOf)
  {
    GroupedKeys(sets);
    var ks := SortDistinctAsc(Dates(sets));
    var p := SortedProgress(sets);
    assert Distinct(ks);
    assert forall i :: 0 <= i < |sets| ==> sets[i].completedOn in ks by {
      forall i | 0 <= i < |sets| ensures sets[i].completedOn in ks {
        assert Dates(sets)[i] == sets[i].completedOn;
      }
    }
    forall i | 0 <= i < |p|
      ensures SetsField(p[i]) == SumOn(sets, ks[i], One)
      ensures RepsField(p[i]) == SumOn(sets, ks[i], RepsOf)
      ensures DurationField(p[i]) == SumOn(sets, ks[i], DurationOf)
    {
      GroupedTotals(sets, ks[i]);
    }
    SumStatsOver(p, ks, sets, SetsField, One);
    PartitionSum(ks, sets, One);
    CountAll(sets);
    SumStatsOver(p, ks, sets, RepsField, RepsOf);
    PartitionSum(ks, sets, RepsOf);
    SumStatsOver(p, ks, sets, DurationField, DurationOf);
    PartitionSum(ks, sets, DurationOf);
    DistinctCard(ks);
    assert Grouped(sets).Keys == set x | x in ks;
  }

  lemma {:induction false} CountAll(sets: seq<SetRow>)
    ensures SumAll(sets, One) == |sets|
  {
    if sets != [] {
      CountAll(sets[..|sets| - 1]);
    }
  }

  /** The report covers the sets of the window: its entries and summary are
      those of the window's day table. */
  lemma ProgressReport(exercises: map<int, ExerciseRow>, user: int, exerciseId: int, days: int, today: Date,
                       rows: seq<SetRow>, r: Progress)
    requires ExerciseProgressOf(exercises, user, exerciseId, days, today, rows) == Ok(r)
    ensures forall s :: s in InWindow(rows, r.startDate, today) <==> s in rows && today - days < s.completedOn <= today
    ensures r.progress == SortedProgress(InWindow(rows, r.startDate, today))
    ensures r.summary.totalWorkouts == |r.progress|
    ensures r.summary.totalSets == |InWindow(rows, r.startDate, today)|
    ensures r.summary.totalReps == SumAll(InWindow(rows, r.startDate, today), RepsOf)
    ensures r.summary.totalDuration == SumAll(InWindow(rows, r.startDate, today), DurationOf)
  {
    var sets := InWindow(rows, r.startDate, today);
    assert r.startDate == today - (days - 1);
    assert r.progress == SortedProgress(sets) && r.summary.totalWorkouts == |Grouped(sets)|
      && r.summary.totalSets == SumStats(r.progress, SetsField)
      && r.summary.totalReps == SumStats(r.progress, RepsField)
      && r.summary.totalDuration == SumStats(r.progress, DurationField);
    ProgressTotals(sets);
  }
}
