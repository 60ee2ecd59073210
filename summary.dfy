/** The weekly-summary service: whether an activity is due on a date
    (weekly day-sets and the biweekly cadence), the day-by-day completion
    breakdown, the summary's integer metrics, the per-category progress
    list, the workout summary and the current-streak computation. The data
    store's reads are inputs: the user's active activities, the set of
    (activity id, date) completions (unique per pair), the user's special
    days by date (unique per date) and today's date. */
module Summary {
  import opened Common
  import opened Sorting
  import opened Runs

  /** An active activity row as the summary queries read it. */
  datatype Activity = Activity(
    id: int,
    points: int,
    categoryId: Option<int>,
    daysOfWeek: Option<string>,
    frequency: string,
    biweeklyStart: Option<Date>)

  // ---------------------------------------------------------------------
  // Scheduling

  /** The biweekly cadence admits date d: an anchor exists, d is not before
      it, and the whole weeks since the anchor are even. */
  predicate BiweeklyOn(d: Date, anchor: Option<Date>)
  {
    anchor.Some? && d - anchor.value >= 0 && ((d - anchor.value) / 7) % 2 == 0
  }

  /** Whether an activity is due on date d. */
  function IsScheduledForDay(daysOfWeek: Option<string>, d: Date, frequency: string, anchor: Option<Date>): (due: bool)
    ensures frequency == "biweekly" && (anchor.None? || d < anchor.value) ==> !due
    ensures daysOfWeek == Some("") ==> !due
    ensures daysOfWeek.None? && frequency != "biweekly" ==> due
    ensures due ==> daysOfWeek.None? || DayName(d) in Split(daysOfWeek.value)
    ensures (frequency != "biweekly" || BiweeklyOn(d, anchor)) && daysOfWeek.Some? ==>
      (due <==> DayName(d) in Split(daysOfWeek.value))
    ensures frequency == "biweekly" && anchor.Some? && d >= anchor.value && ((d - anchor.value) / 7) % 2 == 1 ==> !due
  {
    if frequency == "biweekly" && !BiweeklyOn(d, anchor) then false
    else
      match daysOfWeek
      case None => true
      case Some(days) => DayName(d) in Split(days)
  }

  function Due(a: Activity, d: Date): bool
  {
    IsScheduledForDay(a.daysOfWeek, d, a.frequency, a.biweeklyStart)
  }

  /** For a biweekly activity with no day-set, the dates from the anchor on
      are due exactly in the first seven days of every fourteen. */
  lemma BiweeklyWindow(d: Date, a: Date)
    requires a <= d
    ensures IsScheduledForDay(None, d, "biweekly", Some(a)) <==> (d - a) % 14 < 7
  {
    var n := d - a;
    var q, r := n / 14, n % 14;
    assert n == 14 * q + r && 0 <= r < 14;
    if r < 7 {
      assert n == 7 * (2 * q) + r;
      ModUnique(n, 2 * q, r);
      assert (2 * q) % 2 == 0;
    } else {
      assert n == 7 * (2 * q + 1) + (r - 7);
      ModUnique(n, 2 * q + 1, r - 7);
      assert (2 * q + 1) % 2 == 1;
    }
  }

  /** From the anchor on, the biweekly schedule repeats every 14 days. */
  lemma BiweeklyPeriod(days: Option<string>, d: Date, a: Date)
    requires a <= d
    ensures IsScheduledForDay(days, d + 14, "biweekly", Some(a)) == IsScheduledForDay(days, d, "biweekly", Some(a))
  {
    var n := d - a;
    ModUnique(n, n / 7, n % 7);
    ModUnique(n + 14, n / 7 + 2, n % 7);
    assert (n / 7 + 2) % 2 == (n / 7) % 2;
    WeekdayPeriodic(d, 2);
  }

  /** Without the biweekly cadence the schedule repeats every 7 days. */
  lemma WeeklyPeriod(days: Option<string>, d: Date, frequency: string, anchor: Option<Date>)
    requires frequency != "biweekly"
    ensures IsScheduledForDay(days, d + 7, frequency, anchor) == IsScheduledForDay(days, d, frequency, anchor)
  {
    WeekdayPeriodic(d, 1);
  }

  /** A biweekly activity is never due without an anchor or before it. */
  lemma BiweeklyNeverBeforeAnchor(days: Option<string>, d: Date, anchor: Option<Date>)
    requires anchor.None? || d < anchor.value
    ensures !IsScheduledForDay(days, d, "biweekly", anchor)
  {
  }

  // ---------------------------------------------------------------------
  // Daily breakdown

  /** The running totals of one day: signed points earned, absolute points
      possible, completed and scheduled activity counts. */
  datatype Tally = Tally(earned: int, possible: nat, completed: nat, total: nat)

  function AddActivity(t: Tally, a: Activity, done: set<(int, Date)>, d: Date): Tally
  {
    if !Due(a, d) then t
    else if (a.id, d) in done then Tally(t.earned + a.points, t.possible + Abs(a.points), t.completed + 1, t.total + 1)
    else Tally(t.earned, t.possible + Abs(a.points), t.completed, t.total + 1)
  }

  /** The totals of date d over the activities, in list order. */
  function DayTally(acts: seq<Activity>, done: set<(int, Date)>, d: Date): (r: Tally)
    ensures r.completed <= r.total <= |acts|
    ensures r.possible == 0 ==> r.earned == 0
  {
    if acts == [] then Tally(0, 0, 0, 0)
    else AddActivity(DayTally(acts[..|acts| - 1], done, d), acts[|acts| - 1], done, d)
  }

  /** Completed never exceeds scheduled, and the signed points earned lie
      between minus and plus the absolute points possible. */
  lemma {:induction false} DayTallyBounds(acts: seq<Activity>, done: set<(int, Date)>, d: Date)
    ensures DayTally(acts, done, d).completed <= DayTally(acts, done, d).total
    ensures -(DayTally(acts, done, d).possible as int) <= DayTally(acts, done, d).earned <= DayTally(acts, done, d).possible
  {
    if acts != [] {
      DayTallyBounds(acts[..|acts| - 1], done, d);
    }
  }

  /** A day with nothing due has nothing completed and nothing possible. */
  lemma {:induction false} DayTallyNothingDue(acts: seq<Activity>, done: set<(int, Date)>, d: Date)
    requires forall i :: 0 <= i < |acts| ==> !Due(acts[i], d)
    ensures DayTally(acts, done, d) == Tally(0, 0, 0, 0)
  {
    if acts != [] {
      DayTallyNothingDue(acts[..|acts| - 1], done, d);
    }
  }

  datatype DayEntry =
    | SpecialDay(date: Date, dayType: string)
    | RegularDay(date: Date, tally: Tally)

  /** One entry of the daily breakdown: a special day shows its type and
      counts nothing, whatever is scheduled; any other day its tally. */
  function DayOf(acts: seq<Activity>, done: set<(int, Date)>, special: map<Date, string>, d: Date): (r: DayEntry)
    ensures r.date == d
    ensures r.SpecialDay? <==> d in special
    ensures r.SpecialDay? ==> r.dayType == special[d]
    ensures Completed(r) <= Total(r) <= |acts|
  {
    if d in special then SpecialDay(d, special[d]) else RegularDay(d, DayTally(acts, done, d))
  }

  function Completed(e: DayEntry): nat
  {
    if e.SpecialDay? then 0 else e.tally.completed
  }

  function Total(e: DayEntry): nat
  {
    if e.SpecialDay? then 0 else e.tally.total
  }

  /** The entry's percentage before rounding: 100 on a special day, else
      earned / possible * 100, or 0 when nothing is possible. */
  function Percentage(e: DayEntry): Ratio
  {
    if e.SpecialDay? then Ratio(100, 1) else Percent(e.tally.earned, e.tally.possible)
  }

  /** Every day's percentage lies in [-100, 100]; a special day is 100 with
      nothing completed or scheduled. */
  lemma DayPercentageBounds(acts: seq<Activity>, done: set<(int, Date)>, special: map<Date, string>, d: Date)
    ensures Within(Percentage(DayOf(acts, done, special, d)), -100, 100)
    ensures d in special ==>
      Percentage(DayOf(acts, done, special, d)) == Ratio(100, 1)
      && Completed(DayOf(acts, done, special, d)) == 0 && Total(DayOf(acts, done, special, d)) == 0
    ensures Completed(DayOf(acts, done, special, d)) <= Total(DayOf(acts, done, special, d))
  {
    DayTallyBounds(acts, done, d);
  }

  /** get_daily_breakdown: one entry per date from start to end, in order. */
  method GetDailyBreakdown(acts: seq<Activity>, done: set<(int, Date)>, special: map<Date, string>,
                           start: Date, end: Date) returns (days: seq<DayEntry>)
    ensures start <= end ==> |days| == end - start + 1
    ensures start > end ==> days == []
    ensures forall i :: 0 <= i < |days| ==> days[i] == DayOf(acts, done, special, start + i)
  {
    days := [];
    var current := start;
    while current <= end
      invariant start <= current <= Max(start, end + 1)
      invariant |days| == current - start
      invariant forall i :: 0 <= i < |days| ==> days[i] == DayOf(acts, done, special, start + i)
    {
      if current in special {
        days := days + [SpecialDay(current, special[current])];
      } else {
        var earned: int, possible: nat, completed: nat, total: nat := 0, 0, 0, 0;
        for j := 0 to |acts|
          invariant Tally(earned, possible, completed, total) == DayTally(acts[..j], done, current)
        {
          assert acts[..j + 1][..j] == acts[..j];
          var a := acts[j];
          if Due(a, current) {
            total := total + 1;
            possible := possible + Abs(a.points);
            if (a.id, current) in done {
              completed := completed + 1;
              earned := earned + a.points;
            }
          }
        }
        assert acts[..|acts|] == acts;
        days := days + [RegularDay(current, Tally(earned, possible, completed, total))];
      }
      current := current + 1;
    }
  }

  /** The weekly summary's breakdown covers the seven days ending on endDate. */
  method WeeklyBreakdown(acts: seq<Activity>, done: set<(int, Date)>, special: map<Date, string>, endDate: Date)
    returns (days: seq<DayEntry>)
    ensures |days| == 7
    ensures forall i :: 0 <= i < 7 ==> days[i].date == endDate - 6 + i
    ensures forall i :: 0 <= i < 7 ==> days[i] == DayOf(acts, done, special, endDate - 6 + i)
  {
    days := GetDailyBreakdown(acts, done, special, endDate - 6, endDate);
  }

  // ---------------------------------------------------------------------
  // Summary metrics

  datatype Trend = Up | Down | Steady

  /** The summary block: the mean daily percentage, the approximate points
      (ten per completion), the weekday name of the best day and the trend
      of the second half of the period against the first. */
  datatype Metrics = Metrics(avgCompletion: Ratio, totalPoints: int, bestDay: string, trend: Option<Trend>)

  function Percentages(days: seq<DayEntry>): (ps: seq<Ratio>)
    ensures |ps| == |days| && forall i :: 0 <= i < |days| ==> ps[i] == Percentage(days[i])
  {
    if days == [] then [] else Percentages(days[..|days| - 1]) + [Percentage(days[|days| - 1])]
  }

  function SumCompleted(days: seq<DayEntry>): nat
  {
    if days == [] then 0 else SumCompleted(days[..|days| - 1]) + Completed(days[|days| - 1])
  }

  function SumTotal(days: seq<DayEntry>): nat
  {
    if days == [] then 0 else SumTotal(days[..|days| - 1]) + Total(days[|days| - 1])
  }

  /** max(ps): the first position holding the largest ratio. */
  function BestIndex(ps: seq<Ratio>): (r: nat)
    requires |ps| > 0
    ensures r < |ps|
    ensures forall j :: 0 <= j < |ps| ==> RatioGe(ps[r], ps[j])
    ensures forall j :: 0 <= j < r ==> RatioGt(ps[r], ps[j])
  {
    if |ps| == 1 then 0
    else
      var n := |ps| - 1;
      var i := BestIndex(ps[..n]);
      assert forall j :: 0 <= j < n ==> ps[..n][j] == ps[j];
      if RatioGt(ps[n], ps[i]) then
        assert forall j :: 0 <= j < n ==> RatioGt(ps[n], ps[j]) by {
          forall j | 0 <= j < n ensures RatioGt(ps[n], ps[j]) {
            RatioGtGeTrans(ps[n], ps[i], ps[j]);
          }
        }
        n
      else
        i
  }

  /** Compares the second half's mean with the first's, five points either side. */
  function TrendOf(first: Ratio, second: Ratio): (r: Trend)
    ensures r == Up ==> RatioGt(second, first)
    ensures r == Down ==> RatioGt(first, second)
    ensures first == second ==> r == Steady
  {
    assert (first.num + 5 * first.den) * second.den == first.num * second.den + 5 * (first.den * second.den);
    assert (first.num - 5 * first.den) * second.den == first.num * second.den - 5 * (first.den * second.den);
    if RatioGt(second, Ratio(first.num + 5 * first.den, first.den)) then Up
    else if RatioGt(Ratio(first.num - 5 * first.den, first.den), second) then Down
    else Steady
  }

  /** Swapping the halves turns a rise into a fall and back: the trend is
      symmetric about the five-point band. */
  lemma TrendSwap(a: Ratio, b: Ratio)
    ensures TrendOf(a, b) == Up <==> TrendOf(b, a) == Down
    ensures TrendOf(a, b) == Steady <==> TrendOf(b, a) == Steady
  {
    assert (a.num + 5 * a.den) * b.den == a.num * b.den + 5 * (a.den * b.den);
    assert (a.num - 5 * a.den) * b.den == a.num * b.den - 5 * (a.den * b.den);
    assert (b.num + 5 * b.den) * a.den == b.num * a.den + 5 * (a.den * b.den);
    assert (b.num - 5 * b.den) * a.den == b.num * a.den - 5 * (a.den * b.den);
  }

  /** calculate_summary_metrics. */
  function CalculateSummaryMetrics(days: seq<DayEntry>): (m: Metrics)
    ensures days == [] ==> m == Metrics(Ratio(0, 1), 0, "N/A", None)
    ensures days != [] ==> m.trend.Some? && m.totalPoints == 10 * SumCompleted(days)
    ensures days != [] ==>
      exists i :: 0 <= i < |days| && m.bestDay == FullDayNames[Weekday(days[i].date)] &&
        forall j :: 0 <= j < |days| ==> RatioGe(Percentage(days[i]), Percentage(days[j]))
  {
    if days == [] then Metrics(Ratio(0, 1), 0, "N/A", None)
    else
      var ps := Percentages(days);
      var best := BestIndex(ps);
      var mid := |days| / 2;
      var first := if mid > 0 then Mean(ps[..mid]) else Ratio(0, 1);
      var second := Mean(ps[mid..]);
      Metrics(Mean(ps), 10 * SumCompleted(days), FullDayNames[Weekday(days[best].date)], Some(TrendOf(first, second)))
  }

  /** Over a breakdown, the mean percentage lies in [-100, 100] and the
      approximate points never exceed ten per scheduled activity. */
  lemma {:induction false} SumCompletedBound(days: seq<DayEntry>)
    requires forall i :: 0 <= i < |days| ==> days[i].RegularDay? ==> days[i].tally.completed <= days[i].tally.total
    ensures SumCompleted(days) <= SumTotal(days)
  {
    if days != [] {
      SumCompletedBound(days[..|days| - 1]);
    }
  }

  lemma MetricsBounds(acts: seq<Activity>, done: set<(int, Date)>, special: map<Date, string>, days: seq<DayEntry>)
    requires forall i :: 0 <= i < |days| ==> days[i] == DayOf(acts, done, special, days[i].date)
    ensures var m := CalculateSummaryMetrics(days);
      Within(m.avgCompletion, -100, 100) && 0 <= m.totalPoints <= 10 * SumTotal(days)
  {
    BreakdownDayBounds(acts, done, special, days);
    MetricsAverage(days);
    MetricsPoints(days);
  }

  lemma MetricsAverage(days: seq<DayEntry>)
    requires forall i :: 0 <= i < |days| ==> Within(Percentage(days[i]), -100, 100)
    ensures Within(CalculateSummaryMetrics(days).avgCompletion, -100, 100)
  {
    if days != [] {
      MeanBounds(Percentages(days));
    }
  }

  lemma MetricsPoints(days: seq<DayEntry>)
    requires forall i :: 0 <= i < |days| ==> days[i].RegularDay? ==> days[i].tally.completed <= days[i].tally.total
    ensures 0 <= CalculateSummaryMetrics(days).totalPoints <= 10 * SumTotal(days)
  {
    SumCompletedBound(days);
  }

  /** Every entry of a breakdown has its percentage in [-100, 100] and no
      more completed than scheduled activities. */
  lemma BreakdownDayBounds(acts: seq<Activity>, done: set<(int, Date)>, special: map<Date, string>, days: seq<DayEntry>)
    requires forall i :: 0 <= i < |days| ==> days[i] == DayOf(acts, done, special, days[i].date)
    ensures forall i :: 0 <= i < |days| ==> Within(Percentage(days[i]), -100, 100)
    ensures forall i :: 0 <= i < |days| ==> days[i].RegularDay? ==> days[i].tally.completed <= days[i].tally.total
  {
    forall i | 0 <= i < |days|
      ensures Within(Percentage(days[i]), -100, 100)
      ensures days[i].RegularDay? ==> days[i].tally.completed <= days[i].tally.total
    {
      DayPercentageBounds(acts, done, special, days[i].date);
    }
  }

  // ---------------------------------------------------------------------
  // Category progress

  datatype Category = Category(id: int, name: string, color: string)

  /** One row of the category list; completed and total are always 0. */
  datatype CategoryEntry = CategoryEntry(name: string, color: string, percentage: Ratio, completed: nat, total: nat)

  /** Signed points earned and absolute points possible. */
  datatype Points = Points(earned: int, possible: nat)

  function PercentageOf(e: CategoryEntry): Ratio
  {
    e.percentage
  }

  /** The user's active activities in category cid, in list order. */
  function InCategory(acts: seq<Activity>, cid: int): (r: seq<Activity>)
    ensures forall a :: a in r <==> a in acts && a.categoryId == Some(cid)
  {
    if acts == [] then []
    else
      var a := acts[|acts| - 1];
      assert acts == acts[..|acts| - 1] + [a];
      InCategory(acts[..|acts| - 1], cid) + (if a.categoryId == Some(cid) then [a] else [])
  }

  /** What one due day of an activity adds. */
  function DayPoints(p: Points, a: Activity, done: set<(int, Date)>, d: Date): Points
  {
    if !Due(a, d) then p
    else if (a.id, d) in done then Points(p.earned + a.points, p.possible + Abs(a.points))
    else Points(p.earned, p.possible + Abs(a.points))
  }

  /** One activity's points over the n days from start. */
  function ActivityPoints(a: Activity, done: set<(int, Date)>, start: Date, n: nat): Points
  {
    if n == 0 then Points(0, 0) else DayPoints(ActivityPoints(a, done, start, n - 1), a, done, start + n - 1)
  }

  /** The category's points: every activity over every day, in list order. */
  function CategoryPoints(acts: seq<Activity>, done: set<(int, Date)>, start: Date, n: nat): Points
  {
    if acts == [] then Points(0, 0)
    else
      var p := CategoryPoints(acts[..|acts| - 1], done, start, n);
      var q := ActivityPoints(acts[|acts| - 1], done, start, n);
      Points(p.earned + q.earned, p.possible + q.possible)
  }

  function DaysIn(start: Date, end: Date): nat
  {
    if start <= end then end - start + 1 else 0
  }

  /** The unsorted list: one entry per category having at least one of the
      user's active activities, in the order the categories were read. */
  function CategoryEntries(cats: seq<Category>, acts: seq<Activity>, done: set<(int, Date)>, start: Date, end: Date)
    : (r: seq<CategoryEntry>)
    ensures |r| <= |cats|
    ensures forall e :: e in r ==> exists c :: c in cats && c.name == e.name && c.color == e.color && InCategory(acts, c.id) != []
  {
    if cats == [] then []
    else
      var c := cats[|cats| - 1];
      var rest := CategoryEntries(cats[..|cats| - 1], acts, done, start, end);
      var catActs := InCategory(acts, c.id);
      if catActs == [] then rest
      else
        var p := CategoryPoints(catActs, done, start, DaysIn(start, end));
        rest + [CategoryEntry(c.name, c.color, Percent(p.earned, p.possible), 0, 0)]
  }

  lemma {:induction false} ActivityPointsBounds(a: Activity, done: set<(int, Date)>, start: Date, n: nat)
    ensures -(ActivityPoints(a, done, start, n).possible as int) <= ActivityPoints(a, done, start, n).earned
    ensures ActivityPoints(a, done, start, n).earned <= ActivityPoints(a, done, start, n).possible
  {
    if n > 0 {
      ActivityPointsBounds(a, done, start, n - 1);
    }
  }

  lemma {:induction false} CategoryPointsBounds(acts: seq<Activity>, done: set<(int, Date)>, start: Date, n: nat)
    ensures -(CategoryPoints(acts, done, start, n).possible as int) <= CategoryPoints(acts, done, start, n).earned
    ensures CategoryPoints(acts, done, start, n).earned <= CategoryPoints(acts, done, start, n).possible
  {
    if acts != [] {
      CategoryPointsBounds(acts[..|acts| - 1], done, start, n);
      ActivityPointsBounds(acts[|acts| - 1], done, start, n);
    }
  }

  /** Every category's percentage lies in [-100, 100], and the completed and
      total counts are the constant placeholders 0. */
  lemma {:induction false} CategoryEntriesBounds(cats: seq<Category>, acts: seq<Activity>, done: set<(int, Date)>, start: Date, end: Date)
    ensures forall e :: e in CategoryEntries(cats, acts, done, start, end) ==>
      Within(e.percentage, -100, 100) && e.completed == 0 && e.total == 0
  {
    if cats != [] {
      CategoryEntriesBounds(cats[..|cats| - 1], acts, done, start, end);
      CategoryPointsBounds(InCategory(acts, cats[|cats| - 1].id), done, start, DaysIn(start, end));
    }
  }

  /** The source's day loop for one activity: the points of every due day
      from start to end. */
  method ActivityPointsOver(a: Activity, done: set<(int, Date)>, start: Date, end: Date) returns (p: Points)
    ensures p == ActivityPoints(a, done, start, DaysIn(start, end))
  {
    var current := start;
    p := Points(0, 0);
    while current <= end
      invariant start <= current <= Max(start, end + 1)
      invariant p == ActivityPoints(a, done, start, current - start)
    {
      if Due(a, current) {
        var earned := p.earned;
        if (a.id, current) in done {
          earned := earned + a.points;
        }
        p := Points(earned, p.possible + Abs(a.points));
      }
      current := current + 1;
    }
  }

  /** The unsorted category list, built category by category. */
  method CategoryList(cats: seq<Category>, acts: seq<Activity>, done: set<(int, Date)>, start: Date, end: Date)
    returns (entries: seq<CategoryEntry>)
    ensures entries == CategoryEntries(cats, acts, done, start, end)
  {
    entries := [];
    for i := 0 to |cats|
      invariant entries == CategoryEntries(cats[..i], acts, done, start, end)
    {
      assert cats[..i + 1][..i] == cats[..i];
      var c := cats[i];
      var catActs := InCategory(acts, c.id);
      if catActs != [] {
        var total := Points(0, 0);
        for j := 0 to |catActs|
          invariant total == CategoryPoints(catActs[..j], done, start, DaysIn(start, end))
        {
          assert catActs[..j + 1][..j] == catActs[..j];
          var p := ActivityPointsOver(catActs[j], done, start, end);
          total := Points(total.earned + p.earned, total.possible + p.possible);
        }
        assert catActs[..|catActs|] == catActs;
        entries := entries + [CategoryEntry(c.name, c.color, Percent(total.earned, total.possible), 0, 0)];
      }
    }
    assert cats[..|cats|] == cats;
  }

  /** get_category_progress: the five categories with the highest
      percentage, highest first. */
  method GetCategoryProgress(cats: seq<Category>, acts: seq<Activity>, done: set<(int, Date)>, start: Date, end: Date)
    returns (top: seq<CategoryEntry>)
    ensures var sorted := SortByRatioDesc(CategoryEntries(cats, acts, done, start, end), PercentageOf);
      top == sorted[..if |sorted| < 5 then |sorted| else 5]
  {
    var entries := CategoryList(cats, acts, done, start, end);
    var sorted := SortByRatioDesc(entries, PercentageOf);
    top := sorted[..if |sorted| < 5 then |sorted| else 5];
  }

  /** The returned categories are sorted, at most five, taken from the full
      list, and rank at least as high as every category cut off. */
  lemma CategoryProgressTop(cats: seq<Category>, acts: seq<Activity>, done: set<(int, Date)>, start: Date, end: Date)
    ensures var all := CategoryEntries(cats, acts, done, start, end);
      var sorted := SortByRatioDesc(all, PercentageOf);
      var top := sorted[..if |sorted| < 5 then |sorted| else 5];
      |top| == (if |all| < 5 then |all| else 5) && SortedByRatio(top, PercentageOf)
      && multiset(top) <= multiset(all)
      && forall x, y :: x in top && y in all && y !in top ==> RatioGe(PercentageOf(x), PercentageOf(y))
  {
    var all := CategoryEntries(cats, acts, done, start, end);
    TopOfSorted(all, PercentageOf, 5);
  }

  // ---------------------------------------------------------------------
  // Workout summary

  /** A workout session row: its owner, the date part of completed_at when
      it was completed, and total_duration in seconds (may be NULL). */
  datatype WorkoutSession = WorkoutSession(userId: int, completedOn: Option<Date>, totalDuration: Option<int>)

  /** The progression note's tier. */
  datatype Tier = Excellent | Great | GoodStart

  datatype WorkoutSummary = WorkoutSummary(sessions: nat, totalMinutes: int, note: Option<Tier>)

  predicate Counted(w: WorkoutSession, user: int, start: Date, end: Date)
  {
    w.userId == user && w.completedOn.Some? && start <= w.completedOn.value <= end
  }

  /** The sessions the query selects, in table order. */
  function Selected(ws: seq<WorkoutSession>, user: int, start: Date, end: Date): (r: seq<WorkoutSession>)
    ensures forall w :: w in r <==> w in ws && Counted(w, user, start, end)
    ensures |r| <= |ws|
  {
    if ws == [] then []
    else
      var w := ws[|ws| - 1];
      assert ws == ws[..|ws| - 1] + [w];
      Selected(ws[..|ws| - 1], user, start, end) + (if Counted(w, user, start, end) then [w] else [])
  }

  /** SQL SUM(total_duration): NULL when no row has a duration, else the sum
      of the durations present. */
  function SumDurations(ws: seq<WorkoutSession>): (r: Option<int>)
    ensures r.None? <==> forall i :: 0 <= i < |ws| ==> ws[i].totalDuration.None?
  {
    if ws == [] then None
    else
      var rest := SumDurations(ws[..|ws| - 1]);
      var last := ws[|ws| - 1].totalDuration;
      if rest.None? then last
      else if last.None? then rest
      else Some(rest.value + last.value)
  }

  /** The note for a session count: none without sessions, then three tiers. */
  function TierFor(sessions: nat): (t: Option<Tier>)
    ensures t.None? <==> sessions == 0
    ensures t == Some(Excellent) <==> sessions >= 5
    ensures t == Some(Great) <==> 3 <= sessions < 5
    ensures t == Some(GoodStart) <==> 1 <= sessions < 3
  {
    if sessions > 0 then
      if sessions >= 5 then Some(Excellent)
      else if sessions >= 3 then Some(Great)
      else Some(GoodStart)
    else None
  }

  /** get_workout_summary: completed sessions in the window, their total
      duration in whole minutes (floor), and the progression note. */
  function GetWorkoutSummary(ws: seq<WorkoutSession>, user: int, start: Date, end: Date): (r: WorkoutSummary)
    ensures r.sessions == |Selected(ws, user, start, end)|
    ensures var secs := SumDurations(Selected(ws, user, start, end));
      var total := if secs.Some? then secs.value else 0;
      r.totalMinutes * 60 <= total < r.totalMinutes * 60 + 60
    ensures r.note == TierFor(r.sessions)
  {
    var sel := Selected(ws, user, start, end);
    var secs := SumDurations(sel);
    var total := if secs.Some? && secs.value != 0 then secs.value else 0;
    WorkoutSummary(|sel|, total / 60, TierFor(|sel|))
  }

  /** Sessions of other users or outside the window change nothing. */
  lemma {:induction false} WorkoutIgnoresOthers(ws: seq<WorkoutSession>, w: WorkoutSession, user: int, start: Date, end: Date)
    requires !Counted(w, user, start, end)
    ensures GetWorkoutSummary(ws + [w], user, start, end) == GetWorkoutSummary(ws, user, start, end)
  {
    assert (ws + [w])[..|ws|] == ws;
    assert Selected(ws + [w], user, start, end) == Selected(ws, user, start, end);
  }

  /** Without counted sessions the summary is empty: no sessions, no
      minutes, no note. */
  lemma NoSessionsNoNote(ws: seq<WorkoutSession>, user: int, start: Date, end: Date)
    requires forall w :: w in ws ==> !Counted(w, user, start, end)
    ensures GetWorkoutSummary(ws, user, start, end) == WorkoutSummary(0, 0, None)
  {
    NoneSelected(ws, user, start, end);
  }

  lemma {:induction false} NoneSelected(ws: seq<WorkoutSession>, user: int, start: Date, end: Date)
    requires forall w :: w in ws ==> !Counted(w, user, start, end)
    ensures Selected(ws, user, start, end) == []
  {
    if ws != [] {
      assert forall w :: w in ws[..|ws| - 1] ==> w in ws;
      NoneSelected(ws[..|ws| - 1], user, start, end);
    }
  }

  // ---------------------------------------------------------------------
  // Current streak

  /** calculate_current_streak on the given dates with today's date: the run
      of consecutive days ending at the latest date, when that date is
      today or yesterday; otherwise 0. Repeated dates are kept, as sorted()
      keeps them. */
  function CurrentStreakOf(dates: seq<Date>, today: Date): nat
  {
    if dates == [] then 0
    else
      var s := SortDesc(dates);
      if s[0] != today && s[0] != today - 1 then 0
      else
        var expected := if s[0] == today - 1 then today - 1 else today;
        LeadingRun(s, expected)
  }

  /** calculate_current_streak, with its counting loop. */
  method CurrentStreak(dates: seq<Date>, today: Date) returns (streak: nat)
    ensures streak == CurrentStreakOf(dates, today)
  {
    if dates == [] {
      return 0;
    }
    var s := SortDesc(dates);
    var expected := today;
    if s[0] != today && s[0] != today - 1 {
      return 0;
    }
    if s[0] == today - 1 {
      expected := today - 1;
    }
    ghost var first := expected;
    streak := 0;
    for i := 0 to |s|
      invariant streak == i && expected == first - i
      invariant forall j :: 0 <= j < i ==> s[j] == first - j
    {
      if s[i] == expected {
        streak := streak + 1;
        expected := expected - 1;
      } else {
        LeadingRunExact(s, first, i);
        return;
      }
    }
    LeadingRunExact(s, first, |s|);
  }

  /** The latest of the dates is the head of the sorted list. */
  lemma SortDescHead(dates: seq<Date>)
    requires dates != []
    ensures SortDesc(dates)[0] in dates
    ensures forall y :: y in dates ==> y <= SortDesc(dates)[0]
  {
    var s := SortDesc(dates);
    assert s[0] in multiset(s);
    forall y | y in dates ensures y <= s[0] {
      assert y in multiset(dates);
      assert y in s;
    }
  }

  /** A streak is running exactly when no date is after today and today or
      yesterday was completed. */
  lemma StreakRunning(dates: seq<Date>, today: Date)
    ensures CurrentStreakOf(dates, today) > 0 <==>
      (today in dates || today - 1 in dates) && forall y :: y in dates ==> y <= today
  {
    if dates != [] {
      SortDescHead(dates);
    }
  }

  /** A value at two positions occurs at least twice. */
  lemma RepeatCount(s: seq<Date>, i: int, j: int)
    requires 0 <= i < j < |s| && s[i] == s[j]
    ensures multiset(s)[s[i]] >= 2
  {
    assert s == s[..j] + s[j..];
    assert s[i] in s[..j] && s[j] in s[j..];
    assert multiset(s) == multiset(s[..j]) + multiset(s[j..]);
  }

  /** A descending list with no date twice is strictly descending. */
  lemma StrictWhenUnique(s: seq<Date>)
    requires Descending(s)
    requires forall x :: multiset(s)[x] <= 1
    ensures StrictlyDescending(s)
  {
    forall i, j | 0 <= i < j < |s| ensures s[i] > s[j] {
      if s[i] == s[j] {
        RepeatCount(s, i, j);
        assert false;
      }
    }
  }

  /** With each date at most once (the logs are unique per activity and
      date), a streak of n covers the n consecutive days ending at the
      latest date (the head of the dates sorted newest first): all of them
      are present. */
  lemma StreakMeaning(dates: seq<Date>, today: Date, n: nat, sorted: seq<Date>)
    requires forall x :: multiset(dates)[x] <= 1
    requires n == CurrentStreakOf(dates, today) && n > 0
    requires sorted == SortDesc(dates)
    ensures sorted != []
    ensures forall d :: sorted[0] - n < d <= sorted[0] ==> d in dates
  {
    StreakIsHeadRun(dates, today, n);
    HeadRunInDates(dates, sorted, n);
  }

  /** ... and the day before those n days is absent, so the streak stops
      at the first gap. */
  lemma StreakStopsAtGap(dates: seq<Date>, today: Date, n: nat, sorted: seq<Date>)
    requires forall x :: multiset(dates)[x] <= 1
    requires n == CurrentStreakOf(dates, today) && n > 0
    requires sorted == SortDesc(dates)
    ensures sorted != [] && sorted[0] - n !in dates
  {
    StreakIsHeadRun(dates, today, n);
    HeadRunGap(dates, sorted, n);
  }

  /** A running streak is the run at the head of the sorted dates. */
  lemma StreakIsHeadRun(dates: seq<Date>, today: Date, n: nat)
    requires n == CurrentStreakOf(dates, today) && n > 0
    ensures dates != [] && n == LeadingRun(SortDesc(dates), SortDesc(dates)[0])
  {
  }

  lemma HeadRunInDates(dates: seq<Date>, s: seq<Date>, n: nat)
    requires forall x :: multiset(dates)[x] <= 1
    requires multiset(s) == multiset(dates) && Descending(s) && s != []
    requires n == LeadingRun(s, s[0])
    ensures forall d :: s[0] - n < d <= s[0] ==> d in dates
  {
    StrictWhenUnique(s);
    RunMeaning(s, s[0], n);
    forall d | s[0] - n < d <= s[0] ensures d in dates {
      assert d in s;
      assert d in multiset(s);
    }
  }

  lemma HeadRunGap(dates: seq<Date>, s: seq<Date>, n: nat)
    requires forall x :: multiset(dates)[x] <= 1
    requires multiset(s) == multiset(dates) && Descending(s) && s != []
    requires n == LeadingRun(s, s[0])
    ensures s[0] - n !in dates
  {
    StrictWhenUnique(s);
    RunMeaning(s, s[0], n);
    assert s[0] - n !in multiset(s);
    assert s[0] - n !in multiset(dates);
  }

  // ---------------------------------------------------------------------
  // Best current streak

  datatype NamedActivity = NamedActivity(id: int, name: string)

  /** The completion dates of one activity, in log order. */
  function DatesOf(logs: seq<(int, Date)>, id: int): (r: seq<Date>)
    ensures forall d :: d in r <==> (id, d) in logs
  {
    if logs == [] then []
    else
      var l := logs[|logs| - 1];
      assert logs == logs[..|logs| - 1] + [l];
      DatesOf(logs[..|logs| - 1], id) + (if l.0 == id then [l.1] else [])
  }

  /** get_best_streak's result: the largest current streak among activities
      with logs, and the first activity reaching it (none while it is 0). */
  function BestOf(acts: seq<NamedActivity>, logs: seq<(int, Date)>, today: Date): (nat, Option<string>)
  {
    if acts == [] then (0, None)
    else
      var (best, name) := BestOf(acts[..|acts| - 1], logs, today);
      var a := acts[|acts| - 1];
      var ds := DatesOf(logs, a.id);
      if ds == [] then (best, name)
      else
        var k := CurrentStreakOf(ds, today);
        if k > best then (k, Some(a.name)) else (best, name)
  }

  /** get_best_streak, with its loop over the activities. */
  method GetBestStreak(acts: seq<NamedActivity>, logs: seq<(int, Date)>, today: Date)
    returns (best: nat, name: Option<string>)
    ensures (best, name) == BestOf(acts, logs, today)
  {
    best, name := 0, None;
    for i := 0 to |acts|
      invariant (best, name) == BestOf(acts[..i], logs, today)
    {
      assert acts[..i + 1][..i] == acts[..i];
      var ds := DatesOf(logs, acts[i].id);
      if ds == [] {
        continue;
      }
      var k := CurrentStreak(ds, today);
      if k > best {
        best, name := k, Some(acts[i].name);
      }
    }
    assert acts[..|acts|] == acts;
  }

  /** Activity i is the first in list order whose streak is `best`. */
  predicate FirstWithStreak(acts: seq<NamedActivity>, logs: seq<(int, Date)>, today: Date, i: int, best: nat)
  {
    && 0 <= i < |acts|
    && CurrentStreakOf(DatesOf(logs, acts[i].id), today) == best
    && forall j :: 0 <= j < i ==> CurrentStreakOf(DatesOf(logs, acts[j].id), today) < best
  }

  /** The best streak is the maximum over the activities' streaks; a name is
      reported exactly when it is positive, and it is the name of the first
      activity that has it (a later tie does not replace it). */
  lemma BestOfIsMax(acts: seq<NamedActivity>, logs: seq<(int, Date)>, today: Date)
    ensures forall i :: 0 <= i < |acts| ==> CurrentStreakOf(DatesOf(logs, acts[i].id), today) <= BestOf(acts, logs, today).0
    ensures BestOf(acts, logs, today).1.None? <==> BestOf(acts, logs, today).0 == 0
    ensures BestOf(acts, logs, today).1.Some? ==>
      exists i :: FirstWithStreak(acts, logs, today, i, BestOf(acts, logs, today).0)
        && acts[i].name == BestOf(acts, logs, today).1.value
  {
    forall i | 0 <= i < |acts| ensures CurrentStreakOf(DatesOf(logs, acts[i].id), today) <= BestOf(acts, logs, today).0 {
      BestOfBound(acts, logs, today, i);
    }
    BestOfNamed(acts, logs, today);
    BestOfWitness(acts, logs, today);
  }

  lemma {:induction false} BestOfBound(acts: seq<NamedActivity>, logs: seq<(int, Date)>, today: Date, i: int)
    requires 0 <= i < |acts|
    ensures CurrentStreakOf(DatesOf(logs, acts[i].id), today) <= BestOf(acts, logs, today).0
  {
    if i == |acts| - 1 {
      BestOfLast(acts, logs, today, i);
    } else {
      var init := acts[..|acts| - 1];
      BestOfBound(init, logs, today, i);
      assert init[i] == acts[i];
      BestOfGrows(acts, logs, today);
    }
  }

  /** The last activity's streak is at most the best over all. */
  lemma BestOfLast(acts: seq<NamedActivity>, logs: seq<(int, Date)>, today: Date, i: int)
    requires i == |acts| - 1 >= 0
    ensures CurrentStreakOf(DatesOf(logs, acts[i].id), today) <= BestOf(acts, logs, today).0
  {
  }

  /** Adding an activity never lowers the best streak. */
  lemma BestOfGrows(acts: seq<NamedActivity>, logs: seq<(int, Date)>, today: Date)
    requires acts != []
    ensures BestOf(acts[..|acts| - 1], logs, today).0 <= BestOf(acts, logs, today).0
  {
  }

  lemma {:induction false} BestOfNamed(acts: seq<NamedActivity>, logs: seq<(int, Date)>, today: Date)
    ensures BestOf(acts, logs, today).1.None? <==> BestOf(acts, logs, today).0 == 0
  {
    if acts != [] {
      BestOfNamed(acts[..|acts| - 1], logs, today);
    }
  }

  lemma {:induction false} BestOfWitness(acts: seq<NamedActivity>, logs: seq<(int, Date)>, today: Date)
    ensures BestOf(acts, logs, today).1.Some? ==>
      exists i :: FirstWithStreak(acts, logs, today, i, BestOf(acts, logs, today).0)
        && acts[i].name == BestOf(acts, logs, today).1.value
  {
    if acts != [] {
      var init := acts[..|acts| - 1];
      var (best0, name0) := BestOf(init, logs, today);
      var (best, name) := BestOf(acts, logs, today);
      if name.Some? {
        if (best, name) == (best0, name0) {
          BestOfWitness(init, logs, today);
          var i :| FirstWithStreak(init, logs, today, i, best0) && init[i].name == name0.value;
          FirstWithStreakExtends(acts, logs, today, i, best);
        } else {
          var last := |acts| - 1;
          forall j | 0 <= j < last ensures CurrentStreakOf(DatesOf(logs, acts[j].id), today) < best {
            BestOfBound(init, logs, today, j);
            assert init[j] == acts[j];
          }
          assert FirstWithStreak(acts, logs, today, last, best);
        }
      }
    }
  }

  /** The first index with a streak stays first when an activity is appended. */
  lemma FirstWithStreakExtends(acts: seq<NamedActivity>, logs: seq<(int, Date)>, today: Date, i: int, best: nat)
    requires acts != [] && FirstWithStreak(acts[..|acts| - 1], logs, today, i, best)
    ensures FirstWithStreak(acts, logs, today, i, best) && acts[i] == acts[..|acts| - 1][i]
  {
    var init := acts[..|acts| - 1];
    assert forall j :: 0 <= j <= i ==> init[j] == acts[j];
  }
}
