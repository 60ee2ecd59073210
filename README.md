# Activity tracker core, modelled in Dafny

This project models the logic of a personal activity tracker's backend:
- which activities are due on which day (weekday lists and biweekly cadence);
- the scores, daily breakdowns, summaries and statistics computed from completion logs;
- current and longest streaks;
- partial updates of activities;
- per-day grouping of exercise sets;
- the todo list (updates, bulk clears, reordering, list order);
- the data export and the merging import;
- the test-email rate limiter and e-mail preference updates;
- the password-reset token store and the login session store.

The model represents the system's data as follows:
- **Dates** are proleptic ordinals (day 1 is 1 January of year 1), and Monday is weekday 0.
- **Timestamps** are integers counting microseconds.
- **Database tables** are maps from key to row.
- **HTTP error responses** are `Failure(status)` values of a `Result`.
- **Percentages** are exact ratios.
- **The clock, generated ids and tokens, and the result of mail delivery** are parameters.

Each source file becomes a module:

| module | file | models |
|---|---|---|
| `Summary` | `summary.dfy` | `backend/services/summary_service.py` |
| `Analytics` | `analytics.dfy` | `backend/routers/analytics.py` |
| `Scores` | `scores.dfy` | `backend/routers/scores.py` |
| `Activities` | `activities.dfy` | `backend/routers/activities.py` |
| `Exercises` | `exercises.dfy` | `backend/routers/exercises.py` |
| `Todos` | `todos.dfy` | `backend/routers/todos.py` |
| `Export` | `export.dfy` | `backend/routers/export.py` |
| `EmailNotifications` | `email_notifications.dfy` | `backend/routers/email_notifications.py` |
| `PasswordReset` | `password_reset.dfy` | `backend/auth/password_reset.py` |
| `Session` | `session.dfy` | `backend/auth/session.py` |

Four support modules hold what these share:
- `Common`: Option and Result, ratios, weekdays, `str.split(',')` and `','.join`;
- `Calendar`: month lengths and ordinals;
- `Runs`: runs of consecutive days;
- `Sorting`: the orderings asked of Python's `sorted`.

The code is imperative where the source is:
- loops that update counters become methods with invariants, proved against specification functions;
- tables changed in place (todos, the import's data store, the rate-limit map, tokens, sessions) become classes whose methods state the whole new state.

Where names or docstrings suggest otherwise, the model follows the code:
- the statistics window spans `days + 1` days;
- the score's activity query has no user filter;
- a preferences update for a user with no preferences row fails with 500.

## Model

| member | source | states |
|---|---|---|
| Common.Split | backend/routers/activities.py:13-16 | `str.split(',')` gives one more piece than there are commas, and no piece holds a comma |
| Common.SplitJoin | backend/routers/activities.py:13-24 | splitting the comma-join of comma-free pieces gives the pieces back |
| Common.JoinSplit | backend/routers/activities.py:13-24 | joining the split of any string gives the string back |
| Common.DayName | backend/routers/scores.py:10-18 | a date's name is the Monday-first abbreviation of its weekday |
| Common.WeekdayPeriodic | backend/services/summary_service.py:418-443 | the weekday repeats every 7 days |
| Common.Percent | backend/routers/scores.py:63 | the percentage times the denominator is 100 times the numerator; it is 0 when the denominator is 0 |
| Common.TruncDiv | backend/routers/email_notifications.py:131 | Python `int()` of a quotient cuts toward zero, for both signs |
| Calendar.DaysInMonth | backend/routers/scores.py:89-96 | a month has 28 to 31 days |
| Calendar.MonthStep | backend/routers/scores.py:94-96 | the day before the 1st of the next month is the last day of this month |
| Calendar.YearEnd | backend/routers/scores.py:91-93 | the day before 1 January of the next year is 31 December |
| Runs.LeadingRun | backend/services/summary_service.py:373-385 | the head run is the longest prefix stepping down one day at a time from the expected date |
| Runs.RunMeaning | backend/routers/analytics.py:47-55 | in a list of distinct dates, newest first, the head run holds exactly the days back from the expected date, and the day before it is missing |
| Runs.LongestRunSpec | backend/routers/analytics.py:67-85 | the longest run is 0 for an empty list, otherwise 1..length; it is attained by some run, and no run is longer |
| Runs.HeadRunWithinLongest | backend/routers/analytics.py:40-41 | the run at the head is never longer than the longest run |
| Sorting.SortDesc | backend/services/summary_service.py:364 | `sorted(reverse=True)` is a descending permutation |
| Sorting.SortDistinctDesc | backend/routers/analytics.py:23 | `sorted(set(...), reverse=True)` is strictly descending with the same members |
| Sorting.SortDistinctAsc | backend/routers/exercises.py:212 | `sorted(...)` of the distinct dates is strictly ascending with the same members |
| Sorting.SortByRatioDesc | backend/services/summary_service.py:247 | a sort by percentage, descending, is an ordered permutation |
| Sorting.TopOfSorted | backend/routers/analytics.py:287 | the first five of the sorted list are ordered, are drawn from the list, and rank at least as high as every entry left out |
| Sorting.BottomOfSorted | backend/routers/analytics.py:288 | the last five of the sorted list are drawn from the list and rank no higher than every entry left out |
| Summary.IsScheduledForDay | backend/services/summary_service.py:418-443 | a biweekly activity without an anchor, or before it, is never due; an empty day list is never due; a null list is due unless biweekly excludes it; when due, the weekday name is in the list |
| Summary.BiweeklyWindow | backend/services/summary_service.py:428-433 | on or after the anchor, a null-day biweekly activity is due exactly in the first week of each 14-day period |
| Summary.BiweeklyPeriod | backend/services/summary_service.py:428-443 | a biweekly schedule repeats every 14 days on and after the anchor |
| Summary.WeeklyPeriod | backend/services/summary_service.py:435-443 | a non-biweekly schedule repeats every 7 days |
| Summary.BiweeklyNeverBeforeAnchor | backend/services/summary_service.py:428-430 | a biweekly activity is not due before its anchor, or ever without one |
| Summary.DayTallyBounds | backend/services/summary_service.py:93-117 | completed ≤ total, and −possible ≤ earned ≤ possible |
| Summary.DayTallyNothingDue | backend/services/summary_service.py:93-117 | a day with nothing due tallies all zeros |
| Summary.DayTally | backend/services/summary_service.py:93-117 | completed ≤ scheduled ≤ the number of activities; nothing possible means nothing earned |
| Summary.DayOf | backend/services/summary_service.py:81-128 | the entry is for its own date; it is special iff the date is a special day, with that day's type; completed ≤ total ≤ the number of activities |
| Summary.DayPercentageBounds | backend/services/summary_service.py:83-119 | a day's percentage lies in −100..100; a special day reports 100; completed ≤ total |
| Summary.GetDailyBreakdown | backend/services/summary_service.py:59-130 | one entry per date from start to end in order, each the day's tally or the special-day entry; empty when start > end |
| Summary.WeeklyBreakdown | backend/services/summary_service.py:10-56 | the weekly summary has exactly 7 days, ending on the end date |
| Summary.BestIndex | backend/services/summary_service.py:147-149 | the best day has the highest percentage, and it is the first such day |
| Summary.TrendSwap | backend/services/summary_service.py:152-161 | swapping the halves swaps up and down and keeps steady |
| Summary.TrendOf | backend/services/summary_service.py:152-161 | up only when the second half is strictly higher, down only when strictly lower; equal halves are steady |
| Summary.CalculateSummaryMetrics | backend/services/summary_service.py:133-171 | with no days: zero, "N/A", no trend; otherwise points are 10 × completed, and a trend is set |
| Summary.MetricsBounds | backend/services/summary_service.py:133-171 | over a real breakdown, the average lies in −100..100 and completed ≤ total |
| Summary.CategoryEntriesBounds | backend/services/summary_service.py:174-244 | every category entry's earned points lie within ± its possible points |
| Summary.ActivityPointsOver | backend/services/summary_service.py:213-234 | the loop over the days computes the activity's earned and possible points over the window |
| Summary.CategoryList | backend/services/summary_service.py:174-244 | the loop over categories builds exactly the entries of the categories that have active activities |
| Summary.GetCategoryProgress | backend/services/summary_service.py:174-248 | the result is the first five of the entries sorted by percentage, descending |
| Summary.CategoryProgressTop | backend/services/summary_service.py:246-248 | at most five categories, ordered, and each ranks at least as high as any category left out |
| Summary.TierFor | backend/services/summary_service.py:300-307 | no note for 0 sessions; Excellent for ≥ 5, Great for 3..4, GoodStart for 1..2 |
| Summary.GetWorkoutSummary | backend/services/summary_service.py:275-313 | sessions counts the user's sessions in the window; minutes are the summed seconds floor-divided by 60; the note is the tier |
| Summary.WorkoutIgnoresOthers | backend/services/summary_service.py:280-295 | a session of another user, or outside the window, changes nothing |
| Summary.NoSessionsNoNote | backend/services/summary_service.py:300-313 | with no counted sessions, the summary is zero with no note |
| Summary.CurrentStreak | backend/services/summary_service.py:358-385 | the loop computes the current streak defined over the dates sorted newest first |
| Summary.StreakRunning | backend/services/summary_service.py:360-371 | the streak is positive iff the list is non-empty and its latest date is today or yesterday |
| Summary.StreakMeaning | backend/services/summary_service.py:373-385 | for distinct dates, a positive streak n means the n days back from the latest date are all present |
| Summary.StreakStopsAtGap | backend/services/summary_service.py:378-385 | for distinct dates, the day before a positive streak's n days is absent: the streak stops at the first gap |
| Summary.GetBestStreak | backend/services/summary_service.py:316-355 | the loop's result is the best streak and name that BestOfIsMax characterises: the highest current streak, named after the first activity reaching it |
| Summary.BestOfBound | backend/services/summary_service.py:316-355 | every activity's streak is at most the best streak |
| Summary.BestOfWitness | backend/services/summary_service.py:316-355 | a reported name belongs to the first activity, in list order, whose streak is the best; every earlier activity's streak is lower |
| Summary.BestOfNamed | backend/services/summary_service.py:316-355 | a name is reported exactly when the best streak is positive |
| Summary.BestOfIsMax | backend/services/summary_service.py:316-355 | the best streak is at least every activity's streak; no name iff it is 0; the name is that of the first activity with that streak, so ties go to the earlier activity |
| Analytics.DatesFor | backend/routers/analytics.py:19-23 | exactly the dates logged for the given activity |
| Analytics.LongestStreak | backend/routers/analytics.py:67-85 | the loop computes the longest run of consecutive days |
| Analytics.CalculateStreaks | backend/routers/analytics.py:14-64 | the method computes the streak record defined over the de-duplicated dates |
| Analytics.StreaksLastCompleted | backend/routers/analytics.py:19-63 | with no logs: 0, 0 and no last date; otherwise the last date is the latest logged date |
| Analytics.StreaksCurrent | backend/routers/analytics.py:33-55 | the current streak is 0 unless the latest date is today or yesterday; otherwise it is the run of consecutive days back from it |
| Analytics.StreaksLongest | backend/routers/analytics.py:40-58 | the longest streak is the longest run and is at least the current streak |
| Analytics.ExpectedOn | backend/routers/analytics.py:223-244 | a null day list is expected every day, an empty one never; when expected, the weekday name is in the list |
| Analytics.ExpectedCountEveryDay | backend/routers/analytics.py:223-244 | over n days, an activity with no day list is expected n times |
| Analytics.ExpectedCountNoDay | backend/routers/analytics.py:223-244 | over n days, an activity with an empty day list is never expected |
| Analytics.ExpectedCountAtMost | backend/routers/analytics.py:223-244 | over n days, any activity is expected at most n times |
| Analytics.WeekdayTotalsMatchActivities | backend/routers/analytics.py:223-244 | the weekday totals add up to the sum of the per-activity expected counts |
| Analytics.DayCompletedPartition | backend/routers/analytics.py:247-257 | the weekday completion counts add up to the logs of counted activities, at most all logs |
| Analytics.ByDayPartition | backend/routers/analytics.py:247-257 | an activity's seven weekday counts add up to its completions |
| Analytics.InitStats | backend/routers/analytics.py:207-219 | the loop gives every activity a zeroed entry keyed by its id |
| Analytics.CountDay | backend/routers/analytics.py:223-244 | one day adds each activity's expectation to its entry, and the day's count to its weekday's total only |
| Analytics.NextDayCounted | backend/routers/analytics.py:223-244 | counting one more day of the window keeps the expected-count invariant: per-id counts and weekday totals cover the first k+1 days |
| Analytics.CountNextDay | backend/routers/analytics.py:223-244 | one pass of the day loop moves the table and the weekday totals from the first k days to the first k+1 |
| Analytics.ExpectedDone | backend/routers/analytics.py:223-244 | with unique ids, the per-id counts at the end of the window are each activity's expected count |
| Analytics.CountLog | backend/routers/analytics.py:247-257 | one log moves the completion counts from the logs before it to the logs up to it; logs of activities not in the table change nothing |
| Analytics.CountExpected | backend/routers/analytics.py:223-244 | after the loop over the window, each activity's expected count and each weekday's total are as the specification counts them |
| Analytics.CountCompletions | backend/routers/analytics.py:247-257 | after the loop over the logs, each entry holds its completions and weekday counts, and the weekday totals count logs of counted activities |
| Analytics.FirstLog | backend/routers/analytics.py:175-187 | the earliest log date, absent iff there are no logs |
| Analytics.Between | backend/routers/analytics.py:198-204 | exactly the logs dated inside the window |
| Analytics.HalvesPartition | backend/routers/analytics.py:292-305 | the earlier and later halves split the logs |
| Analytics.PerDay | backend/routers/analytics.py:260-265 | the rate times the days equals the count; it is 0 with no days |
| Analytics.DirectionOrder | backend/routers/analytics.py:300-305 | equal halves are stable, a non-lower second half is never declining, a non-higher one never improving |
| Analytics.DirectionOf | backend/routers/analytics.py:300-305 | from a zero first-half rate the trend is improving iff the second rate is positive and declining iff it is negative |
| Analytics.WindowStart | backend/routers/analytics.py:174-187 | the start is never before `days` days ago; when moved it is at or before every log; no log inside the requested window falls before it |
| Analytics.Scheduled | backend/routers/analytics.py:268-284 | only activities expected at least once are ranked, each with its final counts |
| Analytics.DayRows | backend/routers/analytics.py:268-280 | seven weekday rows, in order, from the weekday counts |
| Analytics.StatisticsValidation | backend/routers/analytics.py:161 | days outside 1..365 are rejected with 422, and nothing else is |
| Analytics.StatisticsWindow | backend/routers/analytics.py:175-204 | the window ends today; it starts at today − days unless a later first log clamps it; actual days count from the start; total completions are the logs in the window |
| Analytics.HalfRates | backend/routers/analytics.py:292-299 | the halves have actual_days // 2 days and the rest, and each rate is its completions over its days |
| Analytics.StatisticsTotals | backend/routers/analytics.py:207-265 | total expected sums the per-activity expectations; weekday completions never exceed total completions |
| Analytics.BestRanks | backend/routers/analytics.py:284-287 | at most five, ordered, drawn from the list, and ranked at least as high as any left out |
| Analytics.WorstRanks | backend/routers/analytics.py:284-288 | at most five, in ascending order, drawn from the list, and ranked no higher than any left out |
| Analytics.StatisticsRanked | backend/routers/analytics.py:268-288 | the best and worst lists are drawn from activities with expected > 0 |
| Analytics.BuildDayRows | backend/routers/analytics.py:268-280 | the loop builds exactly the seven weekday rows |
| Analytics.ScheduledList | backend/routers/analytics.py:268-284 | the loop builds exactly the list of expected activities |
| Analytics.TotalExpected | backend/routers/analytics.py:307-331 | the loop sums the expected counts |
| Analytics.CountTables | backend/routers/analytics.py:207-257 | the counting loops fill the per-activity and weekday tables as specified |
| Analytics.BestAndWorst | backend/routers/analytics.py:284-287 | the two lists are the five best and the five worst of the ranking |
| Analytics.BuildReport | backend/routers/analytics.py:160-335 | the report built from the window is the specified report |
| Analytics.GetStatistics | backend/routers/analytics.py:160-335 | the endpoint returns exactly the specified statistics, or 422 |
| Scores.IsScheduled | backend/routers/scores.py:13-19 | a null day list is due every day, an empty one never |
| Scores.ScheduledWeekly | backend/routers/scores.py:13-19 | the schedule repeats every 7 days |
| Scores.AgreesWithSummary | backend/routers/scores.py:13-19 | for a non-biweekly activity, this predicate agrees with the summary's |
| Scores.AgreesWithStatistics | backend/routers/scores.py:13-19 | it agrees with the statistics' expected-day test |
| Scores.InRangeMembers | backend/routers/scores.py:53-59 | exactly the logs dated in start..end |
| Scores.ScoreOf | backend/routers/scores.py:22-74 | period and range as requested; all zeros when there are no activities |
| Scores.ScorePercentage | backend/routers/scores.py:63 | 0 when nothing is scheduled; otherwise completed / scheduled × 100 |
| Scores.CalculateScore | backend/routers/scores.py:22-74 | the loop over days and activities computes the specified score |
| Scores.ScheduledCountBounds | backend/routers/scores.py:41-50 | at most n × activities pairs are scheduled; exactly that many when every day list is null |
| Scores.DaysSplit | backend/routers/scores.py:41-50 | the scheduled count and maximum points over a range are the sums over its two parts |
| Scores.LogsSplit | backend/routers/scores.py:53-62 | the logs counted over a range are those of its two parts |
| Scores.ScoreSplit | backend/routers/scores.py:22-74 | all four totals of a score are additive over a split of its range |
| Scores.WeekRange | backend/routers/scores.py:82-86 | the week starts on the date's Monday, ends 6 days later and contains the date; 500 past the last valid date |
| Scores.MonthRange | backend/routers/scores.py:89-96 | from day 1 to the last day of the month (December via the next year); 500 for invalid dates, including December 9999 |
| Scores.GetDailyScore | backend/routers/scores.py:77-79 | the score of the single day |
| Scores.GetWeeklyScore | backend/routers/scores.py:82-86 | the score of the week's range, or its 500 |
| Scores.GetMonthlyScore | backend/routers/scores.py:89-96 | the score of the month's range, or its 500 |
| Scores.DailyEntry | backend/routers/scores.py:105-115 | an entry for the requested date |
| Scores.ScoreHistoryOf | backend/routers/scores.py:99-117 | 422 outside 1..90; otherwise `days` entries, oldest first, the last being today |
| Scores.DailyEntries | backend/routers/scores.py:105-115 | one single-day entry per consecutive date |
| Scores.GetScoreHistory | backend/routers/scores.py:99-117 | the loop builds exactly the specified history |
| Scores.DailyScheduled | backend/routers/scores.py:105-115 | the entries' scheduled counts add up to the range's scheduled count |
| Scores.DailyCompleted | backend/routers/scores.py:105-115 | the entries' completed counts add up to the range's completed count |
| Scores.DailyTotals | backend/routers/scores.py:105-115 | the entries' scheduled and completed counts add up to the score over the whole range |
| Scores.HistoryTotals | backend/routers/scores.py:99-117 | the history's totals equal the score of the last `days` days |
| Activities.StoredDays | backend/routers/activities.py:13-16 | none for a null or empty string; otherwise non-empty comma-free pieces that join back to the string |
| Activities.DaysToString | backend/routers/activities.py:20-24 | none iff the list is none or empty |
| Activities.DaysRoundTrip | backend/routers/activities.py:13-24 | reading back a stored non-empty list of comma-free names gives the list |
| Activities.StoredRoundTrip | backend/routers/activities.py:13-24 | storing what was read gives the stored string back, with the empty string becoming null |
| Activities.RowToActivity | backend/routers/activities.py:10-17 | every field is copied; the day list is none iff the stored text is null or empty; writing a listed day list back gives the stored text |
| Activities.CreateActivity | backend/routers/activities.py:36-54 | 400 iff the category is given and not active; otherwise the new row is exactly the request's name, points, category and joined days, active, and the returned day list is the requested one when it is non-empty and comma-free, none when it is none or empty |
| Activities.UpdateActivity | backend/routers/activities.py:57-93 | 404 for a missing or inactive id, 400 for a bad category; otherwise only that row changes |
| Activities.Patched | backend/routers/activities.py:66-83 | id and active flag are kept; each supplied field is written; a supplied day list stores null iff it is empty; supplying nothing keeps the row |
| Activities.UpdateFields | backend/routers/activities.py:66-83 | each supplied field is written (a supplied day list as its comma-join) and each other field keeps its value; an empty day list stores null |
| Activities.EmptyUpdate | backend/routers/activities.py:66-91 | an update supplying nothing succeeds and changes nothing |
| Activities.UpdateIdempotent | backend/routers/activities.py:57-93 | applying the same update twice equals applying it once |
| Activities.DeleteActivity | backend/routers/activities.py:96-105 | 404 for a missing or inactive id; otherwise only that row is deactivated |
| Activities.DeletedIsGone | backend/routers/activities.py:61-105 | a deleted activity can no longer be updated or deleted (404) |
| Exercises.GroupedKeys | backend/routers/exercises.py:171-203 | one group per distinct date of a set |
| Exercises.GroupedTotals | backend/routers/exercises.py:172-199 | a day's sets, reps and duration are the sums over that day's sets |
| Exercises.GroupedMax | backend/routers/exercises.py:193-199 | a day's maximum reps and duration are at least every truthy value that day |
| Exercises.GroupedUnit | backend/routers/exercises.py:176-188 | a day's weight unit is that of its first set |
| Exercises.GroupByDay | backend/routers/exercises.py:172-199 | the loop builds exactly the specified grouping |
| Exercises.InWindow | backend/routers/exercises.py:143-168 | exactly the sets dated in the window |
| Exercises.ExerciseProgressOf | backend/routers/exercises.py:124-145 | 422 for days outside 1..365; 404 for a missing, inactive or foreign exercise; otherwise a window of exactly `days` days ending today |
| Exercises.ReportOn | backend/routers/exercises.py:161-224 | the report the endpoint assembles for a window is the specified report |
| Exercises.GetExerciseProgress | backend/routers/exercises.py:124-225 | the endpoint returns exactly the specified progress |
| Exercises.PartitionSum | backend/routers/exercises.py:219-224 | summing per distinct date gives the sum over all sets |
| Exercises.ProgressOrdered | backend/routers/exercises.py:212 | the progress entries are in strictly ascending date order, one per date |
| Exercises.ProgressTotals | backend/routers/exercises.py:219-224 | one entry per date; the summary's sets, reps and duration equal the sums of the per-day totals |
| Exercises.ProgressReport | backend/routers/exercises.py:143-224 | the window is the last `days` days; workouts count the entries; the sums are over the sets in the window |
| Todos.CompletionStamp | backend/routers/todos.py:64-73 | completing stamps completed_at with the local clock; un-completing clears it; otherwise both are kept |
| Todos.Patched | backend/routers/todos.py:58-84 | id and owner are kept; each supplied field is written; a set completion stamp after a supplied completion means completed at the local clock; updated_at is the database clock iff anything was supplied |
| Todos.OnlySuppliedChange | backend/routers/todos.py:58-84 | id and owner never change; fields not supplied keep their values; supplying nothing changes nothing |
| Todos.PatchIdempotent | backend/routers/todos.py:58-84 | the same update applied twice at one time equals applying it once |
| Todos.Cleared | backend/routers/todos.py:117-130 | the rows left are exactly those not matching, unchanged |
| Todos.ClearedCount | backend/routers/todos.py:117-152 | the count is the number removed; other users' rows and rows of the other kind stay; no match is left |
| Todos.ReorderAccepts | backend/routers/todos.py:162-170 | the distinct found ids equal the list length iff the list has no repeats and the user owns every id |
| Todos.InsertTodo | backend/routers/todos.py:18 | inserting keeps the list order (incomplete first, then by order index) and adds exactly the todo |
| Todos.Listing | backend/routers/todos.py:12-22 | the listed rows are in list order, each row once, exactly the chosen keys |
| Todos.ListTodos | backend/routers/todos.py:12-22 | the user's todos, each once, in list order |
| Todos.TodoTable.Create | backend/routers/todos.py:25-37 | inserts an incomplete todo with the given fields under the new id |
| Todos.TodoTable.Update | backend/routers/todos.py:40-92 | 404 for a missing or foreign todo, with nothing changed; otherwise only that row is patched and returned |
| Todos.TodoTable.Delete | backend/routers/todos.py:95-108 | 404 for a missing or foreign todo; otherwise only that row is removed |
| Todos.TodoTable.Clear | backend/routers/todos.py:111-152 | removes exactly the user's completed (or incomplete) todos and returns their number |
| Todos.TodoTable.Reorder | backend/routers/todos.py:155-179 | 400 iff the list repeats or names a todo the user does not own, with nothing changed; otherwise the todo at position i gets order index i and the others are unchanged |
| Export.ExportOf | backend/routers/export.py:14-75 | the statistics equal the lengths of the exported lists; the lists hold only the user's rows, every one of them, and as many as the user has, so each row appears exactly once when the table is keyed by id |
| Export.Translated | backend/routers/export.py:128-130 | a category id is translated iff it is truthy and mapped, to its mapped id |
| Export.LastCategory | backend/routers/export.py:96-120 | the map entry for an old id comes from the last payload category with that id |
| Export.IdRangeCard | backend/routers/export.py:158-179 | the ids handed out by n inserts number n |
| Export.DataStore.FindCategory | backend/routers/export.py:99-101 | finds a category of the user with that name, or reports that none exists |
| Export.DataStore.FindActivity | backend/routers/export.py:133-135 | finds an activity of the user with that name, or reports that none exists |
| Export.DataStore.HasLogFor | backend/routers/export.py:163-167 | whether the user already has a log for that activity and date |
| Export.DataStore.ImportCategories | backend/routers/export.py:96-120 | only inserts; each new row is a payload category of the user with an unused name; every payload id is mapped to a user row with that name |
| Export.DataStore.ImportCategory | backend/routers/export.py:99-120 | one payload category: mapped to the user's category of that name, inserted under the next id only when there is none |
| Export.CategoryMapStep | backend/routers/export.py:99-120 | mapping the next payload id to a user row with its name keeps the id map correct |
| Export.CategoryInsertStep | backend/routers/export.py:106-120 | inserting a category whose name the user does not have keeps the inserted rows fresh |
| Export.DataStore.ImportActivity | backend/routers/export.py:126-154 | one payload activity, as for categories, with the category id translated |
| Export.ActivityMapStep | backend/routers/export.py:126-154 | mapping the next payload id to a user row with its name keeps the id map correct |
| Export.ActivityInsertStep | backend/routers/export.py:139-154 | inserting an activity whose name the user does not have keeps the inserted rows fresh |
| Export.DataStore.ImportActivities | backend/routers/export.py:126-154 | as for categories, with each category id translated through the category map |
| Export.DataStore.ImportLog | backend/routers/export.py:160-179 | a log is inserted iff its activity is mapped and no log exists for (user, activity, date); afterwards one exists |
| Export.DataStore.ImportLogs | backend/routers/export.py:158-179 | only inserts, and only remapped, not-yet-present logs; the count is exactly the inserts |
| Export.LogInsertedStep | backend/routers/export.py:158-179 | inserting a payload log under the next id keeps the import invariant |
| Export.InsertKeepsFresh | backend/routers/export.py:163-179 | a new log of the user that duplicates none of the user's logs keeps the inserted logs free of duplicates |
| Export.InsertKeepsHasLog | backend/routers/export.py:163-179 | inserting keeps every log the user already had |
| Export.DataStore.ImportNext | backend/routers/export.py:158-179 | one pass of the log loop keeps the import invariant and advances the counter only when it inserts |
| Export.DataStore.ImportLogsIfAny | backend/routers/export.py:156-179 | without a log list nothing is inserted; the count returned is how much the log table grew |
| Export.MapKeysAreIds | backend/routers/export.py:183-189 | the category map is keyed by exactly the payload's category ids |
| Export.ActivityMapKeysAreIds | backend/routers/export.py:183-189 | the activity map is keyed by exactly the payload's activity ids |
| Export.DataStore.Import | backend/routers/export.py:78-190 | 400 with nothing changed iff version or activities are missing; otherwise only inserts, reports the distinct payload ids, and counts the inserted logs |
| EmailNotifications.WaitMinutes | backend/routers/email_notifications.py:128-131 | the wait lies in 1..5 inside the window, and is at least 5 when the clock went back |
| EmailNotifications.Blocked | backend/routers/email_notifications.py:123-135 | a user is blocked iff their last successful send is under five minutes old |
| EmailNotifications.PerUser | backend/routers/email_notifications.py:123-127 | one user's send never changes another user's wait |
| EmailNotifications.BlockedFiveMinutes | backend/routers/email_notifications.py:126-135 | after a send, the user is blocked exactly for five minutes, told 5 in the first minute and 1 in the last |
| EmailNotifications.TestEmailLimiter.SendTest | backend/routers/email_notifications.py:116-162 | 429 with the wait and no change while blocked; a successful send records now; a failed one records nothing |
| EmailNotifications.GetPreferences | backend/routers/email_notifications.py:22-51 | missing preferences read as disabled, with no address and no last-sent time |
| EmailNotifications.StoredAddress | backend/routers/email_notifications.py:71-72 | an empty address is stored as none |
| EmailNotifications.UpdatePreferences | backend/routers/email_notifications.py:54-113 | 400 iff neither field is supplied; 500 when the user has no row; otherwise only that user's row changes and the reply is the stored preferences |
| EmailNotifications.UpdatedPreferences | backend/routers/email_notifications.py:67-83 | supplied fields are written, with an empty address as none; others and the last-sent time are kept; updated_at is now |
| PasswordReset.AfterCreate | backend/auth/password_reset.py:12-30 | the user's old tokens are gone and the new one expires an hour from now |
| PasswordReset.CreateKeepsOne | backend/auth/password_reset.py:20-27 | after a creation each user has at most one token, the user's is the new one, and others' tokens stay |
| PasswordReset.Validate | backend/auth/password_reset.py:33-64 | a user only for a known, unexpired token; an expired token is deleted; a live one stays |
| PasswordReset.CreateThenValidate | backend/auth/password_reset.py:9-64 | a new token validates to its user for exactly one hour, inclusive |
| PasswordReset.WithoutExpired | backend/auth/password_reset.py:75-86 | the clean-up keeps exactly the unexpired tokens, unchanged |
| PasswordReset.CleanupCount | backend/auth/password_reset.py:75-86 | the clean-up count is the number removed, and no expired token remains |
| PasswordReset.ResetTokenStore.Create | backend/auth/password_reset.py:12-30 | 500 with nothing changed iff the token is another user's; otherwise the table after creation, one token per user kept |
| PasswordReset.ResetTokenStore.ValidateToken | backend/auth/password_reset.py:33-64 | the result and new table are those of Validate |
| PasswordReset.ResetTokenStore.Delete | backend/auth/password_reset.py:67-72 | removes that token only |
| PasswordReset.ResetTokenStore.Cleanup | backend/auth/password_reset.py:75-86 | removes exactly the expired tokens and returns their number |
| Session.Lookup | backend/auth/session.py:29-68 | a user only for a known, unexpired session whose user exists; an expired one is deleted; a live one stays |
| Session.CreateThenLookup | backend/auth/session.py:10-68 | a new session yields its user for exactly thirty days, inclusive, and stays in place |
| Session.LookupRepeat | backend/auth/session.py:29-68 | a look-up never adds sessions, and repeating it gives the same answer |
| Session.WithoutExpired | backend/auth/session.py:79-90 | the clean-up keeps exactly the unexpired sessions, unchanged |
| Session.CleanupCount | backend/auth/session.py:79-90 | the clean-up count is the number removed, and no expired session remains |
| Session.SessionStore.Create | backend/auth/session.py:13-26 | 500 with nothing changed iff the id is in use; otherwise a session expiring in thirty days |
| Session.SessionStore.GetUser | backend/auth/session.py:29-68 | the result and new table are those of Lookup |
| Session.SessionStore.Delete | backend/auth/session.py:71-76 | removes only the named session |
| Session.SessionStore.Cleanup | backend/auth/session.py:79-90 | removes exactly the expired sessions and returns their number |

## Left out

**Not modelled:**
- Floating point and `round(..., 1)`: percentages, averages and rates are exact ratios.
  - Sorts by a rounded percentage (category progress, best and worst activities) may order near-ties differently.
  - Exercise `avg_weight` and `max_weight` are float computations and are left out.
- `get_motivational_message` (`random.choice`) and `get_streaks`: the randomness is foreign, and `get_streaks` only loops `calculate_streaks` over the activities.
- SQL row order among equal sort keys: the todo listing is stated as an order, not as one fixed sequence.
  - The export's lists are not ordered by `created_at` or `completed_at`.
- When a name lookup during import matches several rows, any matching id may be chosen.
- Exceptions surfacing as 500 that are not named above, such as a payload entry missing a required key: each rolls back, and the model does not include them.
- The User record returned by a session look-up: `Session.SessionStore.GetUser` returns only the user id.
- Timestamps compared as ISO strings in SQL are compared as integers.
- A todo update reads two clocks, local time for `completed_at` and the database's UTC time for `updated_at`: both are parameters, and the offset between them is not modelled.
- The todos table's schema is not part of this model; creation uses the defaults the code implies (incomplete, no completion time, updated now).
- Concurrency of the process-wide rate-limit map, and SMTP delivery (its outcome is a parameter).
- Charts, the e-mail service, the scheduler, the migrations and the plain CRUD routers.

**Weaker or conditional contracts:**
- Scores.GetWeeklyScore: requires a valid ordinal date, as a Python `date` always is.
- Scores.ScoreHistoryOf: dates before year 1 (an underflow error in the source) are not rejected.
- Analytics.StatisticsTotals: weekday completions are stated only as at most the total, since the total counts logs of inactive activities too.
- Export.DataStore.Import: id assignment is modelled by counters, not by SQLite's rowid choice.
- Export.ExportOf: each row is proved to appear exactly once only when the table is keyed by its id column, which is the table's primary key; the order of the lists is not stated.
