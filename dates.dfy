/**
 * Calendar days as integer day numbers: day 0 is 1970-01-01 and day d + 1
 * is the day after day d. Weekdays are numbered as Python's `date.weekday()`
 * numbers them, Monday = 0 through Sunday = 6.
 */
module Dates {

  /** The weekday of day 0, 1970-01-01, which was a Thursday. */
  const EpochWeekday: int := 3

  /** Zero-based weekday of `day`, Monday = 0. */
  function Weekday(day: int): (w: int)
    ensures 0 <= w < 7
  {
    (day + EpochWeekday) % 7
  }

  /** Days that lie j days after a Monday, for j < 7, have weekday j. */
  lemma {:induction false} WeekdayAfterMonday(monday: int, j: int)
    requires Weekday(monday) == 0
    requires 0 <= j < 7
    ensures Weekday(monday + j) == j
  {
    var q := (monday + EpochWeekday) / 7;
    assert monday + EpochWeekday == 7 * q;
    ModUnique(monday + j + EpochWeekday, q, j);
  }

  /** Euclidean remainder by 7 is determined by any quotient-remainder split. */
  lemma ModUnique(x: int, q: int, r: int)
    requires x == 7 * q + r && 0 <= r < 7
    ensures x % 7 == r
  {
  }

  /**
   * First day of the current weekly period: today minus today's weekday,
   * so the Monday of the week that holds `today`.
   */
  function PeriodStart(today: int): (start: int)
    ensures Weekday(start) == 0
    ensures start <= today <= start + 6
    ensures forall d :: start < d <= today ==> Weekday(d) != 0
  {
    var start := today - Weekday(today);
    ModUnique(start + EpochWeekday, (today + EpochWeekday) / 7, 0);
    forall d | start < d <= today
      ensures Weekday(d) != 0
    {
      WeekdayAfterMonday(start, d - start);
    }
    start
  }

  /** The n consecutive days that end at `end`, that is (end - n, end]. */
  function DaysEndingAt(end: int, n: nat): (days: set<int>)
    ensures forall d :: d in days <==> end - n < d <= end
    ensures |days| == n
    decreases n
  {
    if n == 0 then {}
    else
      var earlier := DaysEndingAt(end - 1, n - 1);
      assert end !in earlier;
      {end} + earlier
  }

  /** A subset is no larger than its superset. */
  lemma SubsetSize(a: set<int>, b: set<int>)
    requires a <= b
    ensures |a| <= |b|
  {
    assert b == a + (b - a);
    assert a * (b - a) == {};
  }
}
