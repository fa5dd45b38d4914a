/**
 * The per-habit progress snapshot: which days count as completed for the
 * streak, and the aggregates over the habit's records (completed today,
 * last completion, quantity and distinct days in the current week).
 * Every query works on the rows of one habit, as the storage lists them.
 */
module Progress {

  import opened Wrappers
  import Dates
  import Streak

  /** How one day's completion is judged. `Unrecognised` is any other stored value. */
  datatype CompletionMethod = Boolean | Quantity | Minutes | Unrecognised

  /** The columns of a habit that the progress computation reads. */
  datatype Habit = Habit(completionMethod: CompletionMethod, targetQuantity: Option<nat>)

  /** One row of the habit's records: a day and the quantity logged on it. */
  datatype Record = Record(date: int, quantity: nat)

  /** Some record of `records` is dated `day`. */
  predicate HasRecord(records: seq<Record>, day: int) {
    exists i :: 0 <= i < |records| && records[i].date == day
  }

  /** No value occurs twice in `s`. */
  predicate NoDuplicates(s: seq<int>) {
    forall i, j :: 0 <= i < j < |s| ==> s[i] != s[j]
  }

  /** `SUM(quantity_completed)` over the records dated `day`. */
  function DaySum(records: seq<Record>, day: int): (total: nat)
    ensures total > 0 ==> HasRecord(records, day)
  {
    if records == [] then 0
    else
      var rest := DaySum(records[1..], day);
      assert HasRecord(records[1..], day) ==> HasRecord(records, day) by {
        if HasRecord(records[1..], day) {
          var i :| 0 <= i < |records[1..]| && records[1..][i].date == day;
          assert records[i + 1].date == day;
        }
      }
      (if records[0].date == day then records[0].quantity else 0) + rest
  }

  /** The habit judges days against a positive target (quantity or minutes habits). */
  predicate UsesTarget(habit: Habit) {
    && (habit.completionMethod == Quantity || habit.completionMethod == Minutes)
    && habit.targetQuantity.Some?
    && habit.targetQuantity.value > 0
  }

  /**
   * The completion rule for one day: against a positive target, the day's
   * summed quantity must reach it; otherwise any record on the day counts.
   */
  predicate DayCompleted(records: seq<Record>, habit: Habit, day: int) {
    if UsesTarget(habit) then DaySum(records, day) >= habit.targetQuantity.value
    else HasRecord(records, day)
  }

  /** `SELECT DISTINCT record_date`: each recorded day once. */
  function DistinctDates(records: seq<Record>): (days: seq<int>)
    ensures NoDuplicates(days)
    ensures forall d :: d in days <==> HasRecord(records, d)
  {
    if records == [] then []
    else
      var rest := DistinctDates(records[1..]);
      assert forall d :: HasRecord(records, d) <==> d == records[0].date || HasRecord(records[1..], d) by {
        forall d ensures HasRecord(records, d) <==> d == records[0].date || HasRecord(records[1..], d) {
          if HasRecord(records, d) && d != records[0].date {
            var i :| 0 <= i < |records| && records[i].date == d;
            assert records[1..][i - 1].date == d;
          }
          if HasRecord(records[1..], d) {
            var i :| 0 <= i < |records[1..]| && records[1..][i].date == d;
            assert records[i + 1].date == d;
          }
        }
      }
      if records[0].date in rest then rest else [records[0].date] + rest
  }

  /** The days of `days` whose summed quantity reaches `target` (the `GROUP BY ... WHERE total >= target` query). */
  function DaysMeetingTarget(days: seq<int>, records: seq<Record>, target: nat): (met: seq<int>)
    requires NoDuplicates(days)
    ensures NoDuplicates(met)
    ensures forall d :: d in met <==> d in days && DaySum(records, d) >= target
  {
    if days == [] then []
    else
      var rest := DaysMeetingTarget(days[1..], records, target);
      assert forall d :: d in days <==> d == days[0] || d in days[1..];
      assert days[0] !in days[1..];
      if DaySum(records, days[0]) >= target then [days[0]] + rest else rest
  }

  /**
   * The days fed to the streak: every recorded day for boolean habits; the
   * days whose summed quantity reaches the target for quantity and minutes
   * habits with a positive target; every recorded day otherwise.
   */
  function CompletedDates(records: seq<Record>, habit: Habit): (days: seq<int>)
    ensures NoDuplicates(days)
    ensures forall d :: d in days <==> DayCompleted(records, habit, d)
    ensures forall d :: d in days ==> HasRecord(records, d)
  {
    if habit.completionMethod == Boolean then DistinctDates(records)
    else if UsesTarget(habit) then
      DaysMeetingTarget(DistinctDates(records), records, habit.targetQuantity.value)
    else DistinctDates(records)
  }

  /** `COUNT(*)` of the records dated `day`. */
  function CountOn(records: seq<Record>, day: int): (count: nat)
    ensures count <= |records|
    ensures count > 0 <==> HasRecord(records, day)
  {
    if records == [] then 0
    else
      var rest := CountOn(records[1..], day);
      assert HasRecord(records, day) <==> records[0].date == day || HasRecord(records[1..], day) by {
        if HasRecord(records, day) && records[0].date != day {
          var i :| 0 <= i < |records| && records[i].date == day;
          assert records[1..][i - 1].date == day;
        }
        if HasRecord(records[1..], day) {
          var i :| 0 <= i < |records[1..]| && records[1..][i].date == day;
          assert records[i + 1].date == day;
        }
      }
      (if records[0].date == day then 1 else 0) + rest
  }

  /** `is_completed_today`: the count of today's records is positive. */
  function IsCompletedToday(records: seq<Record>, today: int): (completed: bool)
    ensures completed <==> HasRecord(records, today)
  {
    CountOn(records, today) > 0
  }

  /** `last_completed_date`: `MAX(record_date)`, absent when there are no records. */
  function LastCompletedDate(records: seq<Record>): (last: Option<int>)
    ensures last.None? <==> records == []
    ensures last.Some? ==> HasRecord(records, last.value)
    ensures last.Some? ==> forall i :: 0 <= i < |records| ==> records[i].date <= last.value
  {
    if records == [] then None
    else
      var first := records[0].date;
      match LastCompletedDate(records[1..])
      case None => Some(first)
      case Some(m) =>
        assert HasRecord(records[1..], m);
        var i :| 0 <= i < |records[1..]| && records[1..][i].date == m;
        assert records[i + 1].date == m;
        Some(if first >= m then first else m)
  }

  /** The record falls in the closed range [start, end]. */
  predicate InRange(r: Record, start: int, end: int) {
    start <= r.date <= end
  }

  /** `current_period_quantity`: `SUM(quantity_completed)` over records in [start, end], 0 when there are none. */
  function PeriodQuantity(records: seq<Record>, start: int, end: int): (total: nat)
    ensures (forall i :: 0 <= i < |records| ==> !InRange(records[i], start, end)) ==> total == 0
    ensures total > 0 ==> exists i :: 0 <= i < |records| && InRange(records[i], start, end) && records[i].quantity > 0
  {
    if records == [] then 0
    else
      var rest := PeriodQuantity(records[1..], start, end);
      assert forall i :: 0 <= i < |records[1..]| ==> records[1..][i] == records[i + 1];
      (if InRange(records[0], start, end) then records[0].quantity else 0) + rest
  }

  /** The distinct days in [start, end] that have a record. */
  function DaysInRange(records: seq<Record>, start: int, end: int): set<int>
  {
    set i | 0 <= i < |records| && InRange(records[i], start, end) :: records[i].date
  }

  /** The facts behind `PeriodDays`' contract, about the set of days in range. */
  lemma DaysInRangeFacts(records: seq<Record>, start: int, end: int)
    ensures DaysInRange(records, start, end) == {} <==>
      forall i :: 0 <= i < |records| ==> !InRange(records[i], start, end)
    ensures start <= end ==> |DaysInRange(records, start, end)| <= end - start + 1
    ensures start > end ==> DaysInRange(records, start, end) == {}
  {
    var days := DaysInRange(records, start, end);
    if start <= end {
      var range := Dates.DaysEndingAt(end, end - start + 1);
      assert days <= range;
      Dates.SubsetSize(days, range);
    }
    assert forall i :: 0 <= i < |records| && InRange(records[i], start, end) ==> records[i].date in days;
  }

  /**
   * `current_period_days_completed`: `COUNT(DISTINCT record_date)` over
   * records in [start, end]. It is 0 exactly when no record is in range
   * and never exceeds the number of days in the range.
   */
  function PeriodDays(records: seq<Record>, start: int, end: int): (count: nat)
    ensures count == 0 <==> forall i :: 0 <= i < |records| ==> !InRange(records[i], start, end)
    ensures start <= end ==> count <= end - start + 1
    ensures start > end ==> count == 0
  {
    DaysInRangeFacts(records, start, end);
    |DaysInRange(records, start, end)|
  }

  /** Over a one-day range the period quantity is that day's summed quantity. */
  lemma {:induction false} PeriodQuantityOfOneDay(records: seq<Record>, day: int)
    ensures PeriodQuantity(records, day, day) == DaySum(records, day)
  {
    if records != [] {
      PeriodQuantityOfOneDay(records[1..], day);
    }
  }

  /** The period quantity of [start, end] is the sum over [start, mid] and [mid + 1, end]. */
  lemma {:induction false} PeriodQuantitySplit(records: seq<Record>, start: int, mid: int, end: int)
    requires start <= mid < end
    ensures PeriodQuantity(records, start, end) ==
      PeriodQuantity(records, start, mid) + PeriodQuantity(records, mid + 1, end)
  {
    if records != [] {
      PeriodQuantitySplit(records[1..], start, mid, end);
    }
  }

  /** In the current week the distinct-day count is at most the days elapsed since Monday, so at most 7. */
  lemma WeekDaysBounded(records: seq<Record>, today: int)
    ensures PeriodDays(records, Dates.PeriodStart(today), today) <= Dates.Weekday(today) + 1 <= 7
  {
    var start := Dates.PeriodStart(today);
    assert today - start == Dates.Weekday(today);
  }

  /**
   * A quantity habit with target 10: two records of one day summing to 10
   * complete the day; summing to 9 they do not.
   */
  lemma TargetReachedBySummedRecords(day: int)
    ensures day in CompletedDates([Record(day, 4), Record(day, 6)], Habit(Quantity, Some(10)))
    ensures day !in CompletedDates([Record(day, 4), Record(day, 5)], Habit(Quantity, Some(10)))
  {
    assert DaySum([Record(day, 4), Record(day, 6)], day) == 10;
    assert DaySum([Record(day, 4), Record(day, 5)], day) == 9;
  }

  /** The progress values the habit list reports for one habit. */
  datatype HabitProgress = HabitProgress(
    isCompletedToday: bool,
    lastCompletedDate: Option<int>,
    currentPeriodQuantity: nat,
    currentPeriodDaysCompleted: nat,
    currentStreak: nat)

  /**
   * The per-habit computation of the habit list: today's completion, the
   * last completion, the aggregates over the current week and the streak
   * over the completed days.
   */
  method HabitSnapshot(records: seq<Record>, habit: Habit, today: int) returns (progress: HabitProgress)
    ensures progress.isCompletedToday <==> HasRecord(records, today)
    ensures progress.lastCompletedDate == LastCompletedDate(records)
    ensures progress.currentPeriodQuantity == PeriodQuantity(records, Dates.PeriodStart(today), today)
    ensures progress.currentPeriodDaysCompleted == PeriodDays(records, Dates.PeriodStart(today), today)
    ensures progress.currentPeriodDaysCompleted <= 7
    ensures progress.currentStreak == Streak.Streak(CompletedDates(records, habit), today)
    ensures progress.currentStreak > 0 ==>
      DayCompleted(records, habit, today) || DayCompleted(records, habit, today - 1)
    ensures progress.currentStreak > 0 ==>
      progress.lastCompletedDate.Some? && progress.lastCompletedDate.value >= today - 1
  {
    var start := Dates.PeriodStart(today);
    WeekDaysBounded(records, today);
    var completed := CompletedDates(records, habit);
    var streak := Streak.CalculateStreak(completed, today);
    if streak > 0 {
      var newest := Streak.Newest(completed);
      assert HasRecord(records, newest);
      ghost var i :| 0 <= i < |records| && records[i].date == newest;
    }
    progress := HabitProgress(
      IsCompletedToday(records, today),
      LastCompletedDate(records),
      PeriodQuantity(records, start, today),
      PeriodDays(records, start, today),
      streak);
  }
}
