# Habit tracker progress core, in Dafny

This project models the progress computation of a habit-tracking backend
(`backend/app.py`). Users define habits. Each habit has a completion method:
`boolean`, `quantity` or `minutes`. Quantity and minutes habits may also have a
target quantity. Completions are stored as records keyed by (habit id, record
date).

The model covers four parts of the backend:

- **The current streak.** `calculate_streak` is modelled by
  `Streak.CalculateStreak`, a method with the source's loop. It is proved
  equal to the function `Streak.Streak`. That function is then characterised
  without the sort or the walk: the streak is 0 when there are no dates, or
  when the newest date is neither today nor yesterday. Otherwise it is the
  length of the run of consecutive days that ends at the newest date.
- **Which days feed the streak.** This is the three-branch SQL selection,
  modelled by `Progress.CompletedDates`:
  - boolean habits: every recorded day;
  - quantity or minutes habits with a positive target: days whose summed
    quantity reaches the target;
  - anything else: every recorded day.
- **The weekly aggregates.** These are the period start (the Monday of the
  current week), `is_completed_today`, `last_completed_date`,
  `current_period_quantity` and `current_period_days_completed`. All are
  functions over a habit's rows. `Progress.HabitSnapshot` puts them together
  with the streak, as the habit list does for each habit.
- **The two writes to the records table.** These are the upsert of
  `add_habit_record` and the removal in `delete_habit_record_today`. They are
  modelled as methods of the class `RecordTable.HabitStore`, which holds a map
  from (habit id, date) to quantity. The predicate `RecordTable.ListsHabit`
  ties that map to the row sequence the queries read. Lemmas then show what a
  write does to the values the queries report.

Representation choices:

- Dates are integer day numbers. Day 0 is 1970-01-01, a Thursday, so
  `Dates.Weekday(d) = (d + 3) % 7` with Monday = 0, as in Python's
  `date.weekday()`.
- Quantities are naturals.
- "Today" is a parameter. It is never read from a clock.
- Python's `sorted(..., reverse=True)` is the function `Streak.SortDesc`. Its
  contract says the result is ordered newest first and is a permutation of the
  input.

Two points of the code that shape the model:

- **Where the completion rule runs.** The completion rule is applied by the
  SQL selection (`backend/app.py:193-222`), and `calculate_streak` receives
  only dates. The model therefore composes
  `Streak.CalculateStreak(Progress.CompletedDates(records, habit), today)`.
- **Repeat boolean logs.** A repeated boolean log leaves the stored quantity
  as it is, even when it is not 1, because `ON DUPLICATE KEY UPDATE` touches
  only `created_at`. `RecordTable.Logged` keeps the stored value.
- **Dates after today.** Records may carry any date. A completed date after
  today makes the streak 0, because the newest date is then neither today nor
  yesterday. `Streak.FutureDateResetsStreak` states this behaviour of the code.

## Model

| member | source | states |
|---|---|---|
| Streak.CalculateStreak | backend/app.py:20-56 | The loop returns `Streak(dates, today)`. The result is 0 for no dates. It is positive exactly when the newest date is today or yesterday. When positive, it is the length of the run of consecutive days ending at the newest date: every day of the run is a completed date and the day before it is not. |
| Streak.Streak | backend/app.py:20-56 | The functional model of `calculate_streak`: sort newest first, return 0 unless the newest date is today or yesterday, else walk from it. It is 0 for no dates and never exceeds the number of dates; its meaning is stated by `StreakCharacterised`. |
| Streak.RunFrom | backend/app.py:49-55 | The walk of the loop over a newest-first list: a date equal to the expected day extends the run and moves the expected day back, an older date ends it, a newer date is skipped. It counts at most one day per list element; what it counts is stated by `RunFromCountsRun`. |
| Streak.SortDesc | backend/app.py:23-29 | The sorted list is ordered newest first, has the same length as the input and is a permutation of it (same multiset). |
| Streak.RunFromCountsRun | backend/app.py:49-55 | On a newest-first list, the walk (extend on the expected day, stop on an older day, skip a newer one) counts exactly the run of consecutive days ending at the expected day. |
| Streak.StreakCharacterised | backend/app.py:34-55 | The streak function without the sort or the walk: 0 for no dates; positive iff the newest date is today or yesterday; and then the length of the run ending at the newest date. |
| Streak.StreakOfConsecutiveRun | backend/app.py:38-52 | If the dates are exactly the n consecutive days ending today or yesterday (any order, any repetition), the streak is n. |
| Streak.StreakDependsOnlyOnDays | backend/app.py:49-55 | Two date lists that contain the same days have the same streak, so order and repetition do not matter. |
| Streak.NewestOfSameDays | backend/app.py:23-38 | Two lists that contain the same days are both non-empty and have the same newest day. |
| Streak.DuplicateDoesNotInflate | backend/app.py:49-55 | Appending a date already present leaves the streak unchanged. |
| Streak.HistoryPastGapIgnored | backend/app.py:53-55 | Adding dates older than the first missing day before the run leaves the streak unchanged. |
| Streak.StreakAtMostDistinctDays | backend/app.py:38-52 | The streak is at most the number of distinct completed days. |
| Streak.FutureDateResetsStreak | backend/app.py:38-46 | A completed date later than today makes the streak 0, whatever the other dates are. |
| Streak.StreakOfSingleDate | backend/app.py:38-46 | A single date gives streak 1 when it is today or yesterday, and 0 when it is two days ago. |
| Streak.StreakOfFourDayRun | backend/app.py:49-52 | Today and the three days before it give streak 4. |
| Streak.StreakStopsAtGap | backend/app.py:53-55 | Today, yesterday and three days ago give streak 2: the gap ends the count. |
| Streak.StreakIgnoresRepeatedToday | backend/app.py:49-55 | Today, today again and yesterday give streak 2. |
| Dates.Weekday | backend/app.py:131 | The weekday number lies in 0..6. |
| Dates.WeekdayAfterMonday | backend/app.py:130-132 | The day j days after a Monday (j < 7) has weekday j. |
| Dates.PeriodStart | backend/app.py:130-132 | The period start is a Monday. It lies on or before today and at most 6 days earlier. No day after it, up to today, is a Monday, so it is the Monday of today's week. |
| Dates.DaysEndingAt | backend/app.py:147-153 | The set holds exactly the n days of (end - n, end] and has n elements. |
| Progress.DaySum | backend/app.py:208-211 | A day's summed quantity is positive only if some record is dated that day. |
| Progress.DistinctDates | backend/app.py:196 | Each recorded day appears exactly once: the list has no duplicates, and a day is in it iff some record has that date. |
| Progress.DaysMeetingTarget | backend/app.py:204-217 | From a duplicate-free list of days, this keeps exactly those whose summed quantity is at least the target, without duplicates. |
| Progress.CompletedDates | backend/app.py:193-222 | Returns no duplicates. A day is selected iff it meets the completion rule: against a positive target (quantity or minutes habits), the day's sum reaches the target; otherwise (boolean, no or zero target, other methods) it has a record. Every selected day has a record. |
| Progress.TargetReachedBySummedRecords | backend/app.py:204-217 | With target 10, two same-day records of 4 and 6 complete the day; 4 and 5 do not. |
| Progress.CountOn | backend/app.py:138 | The count of records on a day is at most the number of records, and it is positive iff some record is dated that day. |
| Progress.IsCompletedToday | backend/app.py:138 | True iff some record is dated today. |
| Progress.LastCompletedDate | backend/app.py:139 | Absent iff there are no records. Otherwise it is the date of some record, and no record is later. |
| Progress.PeriodQuantity | backend/app.py:140-146 | 0 when no record falls in [start, end]. When positive, some record in range has a positive quantity. |
| Progress.PeriodQuantityOfOneDay | backend/app.py:140-146 | Over the one-day range [d, d], the period quantity equals that day's summed quantity. |
| Progress.PeriodQuantitySplit | backend/app.py:140-146 | The quantity over [start, end] is the sum of the quantities over [start, mid] and [mid + 1, end]. |
| Progress.DaysInRangeFacts | backend/app.py:147-153 | The set of recorded days in [start, end] is empty iff no record is in range. It has at most end - start + 1 elements, and it is empty when start > end. |
| Progress.PeriodDays | backend/app.py:147-153 | The distinct-day count is 0 iff no record falls in [start, end]. It is at most the number of days in the range, and 0 for an empty range. |
| Progress.WeekDaysBounded | backend/app.py:130-153 | Over the current week, the distinct-day count is at most today's weekday + 1, so at most 7. |
| Progress.HabitSnapshot | backend/app.py:180-231 | The per-habit snapshot gives today's completion, the last date, the week's quantity and distinct days (at most 7), and the streak over the completed days. A positive streak implies the habit was completed today or yesterday, and that the last completed date is at least yesterday. |
| RecordTable.Logged | backend/app.py:341-355 | Logging adds the key and changes no other entry. For boolean habits a new key gets 1 and an existing one keeps its quantity. For other methods a new key gets the amount and an existing one grows by it. |
| RecordTable.BooleanLogIdempotent | backend/app.py:341-347 | Logging a boolean habit twice on a day leaves the table as logging it once. |
| RecordTable.QuantityLogsAccumulate | backend/app.py:348-355 | For non-boolean habits, logging a and then b on a day equals logging a + b once, so 3 then 4 gives 7. |
| RecordTable.DaySumOfDistinctRows | backend/app.py:206-212 | Over rows with distinct dates that agree with the table, a day's summed quantity is its stored value if the day has a row, else 0. |
| RecordTable.DaySumMatchesTable | backend/app.py:206-212 | For a habit's rows as listed from the table, a day has a row iff its key is stored, and the day's sum is the stored quantity (0 if absent). |
| RecordTable.LoggedQuantityAddsToDay | backend/app.py:348-355 | After a non-boolean log, the day has a record, its sum grows by exactly the amount, and every other day's sum is unchanged. |
| RecordTable.LoggedBooleanCompletesDay | backend/app.py:341-347 | After a boolean log, the day has a record. Its sum is 1 if it was new and unchanged otherwise. Every other day's sum is unchanged. |
| RecordTable.RemovedTodayClearsOnlyToday | backend/app.py:382-384 | After removing the (habit, today) key, the habit is not completed today and every other day's sum is unchanged. |
| RecordTable.HabitStore.AddHabitRecord | backend/app.py:321-357 | Returns MissingHabitId for habit id 0, HabitNotFound for an unknown habit, and otherwise Done. On Done the new table is `Logged` of the old one, with the supplied quantity (default 1) and the habit's completion method. On an error nothing changes. Every record still belongs to a stored habit. |
| RecordTable.HabitStore.DeleteHabitRecordToday | backend/app.py:370-399 | Returns MissingHabitId for an absent or zero habit id, HabitNotFound for an unknown habit, and otherwise Done. On Done exactly the (habit, today) key is removed, and `deleted` says whether it existed. On an error nothing changes. |

## Left out

- HTTP routes, JSON bodies and status codes are not modelled. The outcomes of the two writes are the `Status` values; their messages and codes are transport.
- The other routes are left out: categories, creating, updating and deleting habits, and the heatmap range queries. They are plain database statements with no logic beyond the database.
- MySQL connections, cursors, commit and rollback are not modelled. The atomicity of `ON DUPLICATE KEY UPDATE` against concurrent writers is also not modelled. The model has the resulting map semantics only.
- The `created_at` timestamp is not modelled. The upsert refreshes it, and `cursor.lastrowid` returns the record id; both are storage details.
- ISO date parsing (`date.fromisoformat`) and `.isoformat()` formatting are not modelled. Dates are integer day numbers, with no bound at years 1 and 9999.
- The check for an empty `record_date` string in `add_habit_record` is not modelled, since a day number cannot be empty. A missing `habit_id` key (a 500 through the generic handler) is also not modelled.
- Decimal target quantities and negative or fractional logged quantities are not modelled. All quantities are naturals.
- Fetching a habit's rows from the table is not computed. `RecordTable.ListsHabit` states when a row sequence is that habit's rows of the map, and the lemmas take both as given.
- The habit list's order (`ORDER BY created_at`), its category filter and the per-habit category lookup are not modelled, nor are the `count_method`, `description` and `target_days_per_week` columns. No computation in the core reads them.
- The second empty check in `calculate_streak` (`backend/app.py:34-35`) cannot be reached after the first one, so it has no counterpart.
