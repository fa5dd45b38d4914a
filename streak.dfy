/**
 * The current-streak computation of the habit tracker: given the days on
 * which a habit counts as completed, the number of consecutive days that
 * ends today or yesterday.
 */
module Streak {

  import Dates

  /** `s` is ordered newest first (non-increasing). */
  ghost predicate SortedDesc(s: seq<int>) {
    forall i, j :: 0 <= i < j < |s| ==> s[i] >= s[j]
  }

  /** Inserts `x` into the newest-first sequence `s`. */
  function InsertDesc(x: int, s: seq<int>): (r: seq<int>)
    requires SortedDesc(s)
    ensures SortedDesc(r)
    ensures multiset(r) == multiset(s) + multiset{x}
    ensures r[0] == x || (s != [] && r[0] == s[0])
  {
    if s == [] || x >= s[0] then [x] + s
    else
      assert s == [s[0]] + s[1..];
      [s[0]] + InsertDesc(x, s[1..])
  }

  /** The dates newest first, as `sorted(..., reverse=True)` returns them. */
  function SortDesc(s: seq<int>): (r: seq<int>)
    ensures SortedDesc(r)
    ensures multiset(r) == multiset(s)
    ensures |r| == |s|
  {
    if s == [] then []
    else
      assert s == [s[0]] + s[1..];
      InsertDesc(s[0], SortDesc(s[1..]))
  }

  /** The most recent of a non-empty list of dates. */
  function Newest(dates: seq<int>): (m: int)
    requires dates != []
    ensures m in dates
    ensures forall d :: d in dates ==> d <= m
  {
    if |dates| == 1 then dates[0]
    else
      var rest := Newest(dates[1..]);
      assert dates == [dates[0]] + dates[1..];
      if dates[0] >= rest then dates[0] else rest
  }

  /**
   * The run of completed days that ends at `end` has exactly `n` days:
   * every day of (end - n, end] is in `dates` and the day before is not.
   */
  ghost predicate RunEndsAt(dates: seq<int>, end: int, n: nat) {
    && (forall d :: end - n < d <= end ==> d in dates)
    && end - n !in dates
  }

  /**
   * The walk of the streak loop over the newest-first `completed`, with
   * `expected` the next day the run needs: a date equal to `expected`
   * extends the run and moves `expected` back a day, an older date ends
   * the walk, a newer date (a duplicate) is skipped.
   */
  function RunFrom(completed: seq<int>, expected: int): (n: nat)
    ensures n <= |completed|
  {
    if completed == [] then 0
    else if completed[0] == expected then 1 + RunFrom(completed[1..], expected - 1)
    else if completed[0] < expected then 0
    else RunFrom(completed[1..], expected)
  }

  /**
   * The streak as of `today`: 0 for no dates or when the newest date is
   * neither today nor yesterday, otherwise the walk seeded at the newest date.
   */
  function Streak(dates: seq<int>, today: int): (streak: nat)
    ensures dates == [] ==> streak == 0
    ensures streak <= |dates|
  {
    var completed := SortDesc(dates);
    if completed == [] then 0
    else if completed[0] == today || completed[0] == today - 1 then RunFrom(completed, completed[0])
    else 0
  }

  /** On newest-first dates the walk counts exactly the run that ends at `expected`. */
  lemma {:induction false} RunFromCountsRun(completed: seq<int>, expected: int)
    requires SortedDesc(completed)
    ensures RunEndsAt(completed, expected, RunFrom(completed, expected))
  {
    if completed == [] {
    } else {
      var rest := completed[1..];
      assert completed == [completed[0]] + rest;
      assert SortedDesc(rest);
      if completed[0] == expected {
        RunFromCountsRun(rest, expected - 1);
      } else if completed[0] < expected {
        assert forall k :: 0 <= k < |completed| ==> completed[k] <= completed[0];
      } else {
        RunFromCountsRun(rest, expected);
      }
    }
  }

  /** A run length is determined by its end day. */
  lemma RunLengthUnique(dates: seq<int>, end: int, n1: nat, n2: nat)
    requires RunEndsAt(dates, end, n1) && RunEndsAt(dates, end, n2)
    ensures n1 == n2
  {
  }

  /** One step of the walk, taken at index `i` of `completed`. */
  lemma RunFromStep(completed: seq<int>, i: int, expected: int)
    requires 0 <= i < |completed|
    ensures RunFrom(completed[i..], expected) ==
      if completed[i] == expected then 1 + RunFrom(completed[i + 1..], expected - 1)
      else if completed[i] < expected then 0
      else RunFrom(completed[i + 1..], expected)
  {
    assert completed[i..][1..] == completed[i + 1..];
  }

  /**
   * What the streak is, without the sort or the walk: 0 when there are no
   * dates or the newest is neither today nor yesterday; otherwise positive
   * and the length of the run of consecutive days ending at the newest date.
   */
  lemma {:induction false} StreakCharacterised(dates: seq<int>, today: int)
    ensures dates == [] ==> Streak(dates, today) == 0
    ensures dates != [] ==>
      (Streak(dates, today) > 0 <==> Newest(dates) == today || Newest(dates) == today - 1)
    ensures dates != [] && Streak(dates, today) > 0 ==>
      RunEndsAt(dates, Newest(dates), Streak(dates, today))
  {
    var completed := SortDesc(dates);
    if dates != [] {
      assert forall d :: d in dates <==> d in completed by {
        forall d ensures d in dates <==> d in completed {
          assert d in dates <==> d in multiset(dates);
          assert d in completed <==> d in multiset(completed);
        }
      }
      var newest := Newest(dates);
      assert completed[0] == newest by {
        assert completed[0] in dates;
        assert newest in completed;
        var k :| 0 <= k < |completed| && completed[k] == newest;
        assert k == 0 || completed[0] >= completed[k];
      }
      if newest == today || newest == today - 1 {
        RunFromCountsRun(completed, newest);
        var n := RunFrom(completed, newest);
        assert n > 0;
        assert RunEndsAt(dates, newest, n);
      }
    }
  }

  /**
   * Dates whose days are exactly the n consecutive days ending today or
   * yesterday, in any order and with any repetition, have streak n.
   */
  lemma StreakOfConsecutiveRun(dates: seq<int>, end: int, n: nat, today: int)
    requires n >= 1
    requires end == today || end == today - 1
    requires forall d :: d in dates <==> end - n < d <= end
    ensures Streak(dates, today) == n
  {
    assert end in dates;
    StreakCharacterised(dates, today);
    var newest := Newest(dates);
    assert newest == end;
    RunLengthUnique(dates, end, n, Streak(dates, today));
  }

  /** Two lists holding the same days have the same newest day. */
  lemma NewestOfSameDays(dates1: seq<int>, dates2: seq<int>)
    requires forall d :: d in dates1 <==> d in dates2
    requires dates1 != []
    ensures dates2 != [] && Newest(dates1) == Newest(dates2)
  {
    assert dates1[0] in dates1;
    var n1, n2 := Newest(dates1), Newest(dates2);
    assert n1 in dates2 && n2 in dates1;
  }

  /** Two lists holding the same days (duplicates aside) have the same streak. */
  lemma StreakDependsOnlyOnDays(dates1: seq<int>, dates2: seq<int>, today: int)
    requires forall d :: d in dates1 <==> d in dates2
    ensures Streak(dates1, today) == Streak(dates2, today)
  {
    StreakCharacterised(dates1, today);
    StreakCharacterised(dates2, today);
    assert dates2 != [] ==> dates2[0] in dates2;
    if dates1 != [] {
      NewestOfSameDays(dates1, dates2);
      var newest, n1, n2 := Newest(dates1), Streak(dates1, today), Streak(dates2, today);
      if n1 > 0 {
        assert RunEndsAt(dates2, newest, n1);
        RunLengthUnique(dates2, newest, n1, n2);
      }
    }
  }

  /** A repeated date never inflates the streak. */
  lemma DuplicateDoesNotInflate(dates: seq<int>, d: int, today: int)
    requires d in dates
    ensures Streak(dates + [d], today) == Streak(dates, today)
  {
    StreakDependsOnlyOnDays(dates + [d], dates, today);
  }

  /** Appending dates older than the newest one keeps the newest one. */
  lemma NewestOfAppend(dates: seq<int>, older: seq<int>)
    requires dates != []
    requires forall d :: d in older ==> d < Newest(dates)
    ensures Newest(dates + older) == Newest(dates)
  {
    var all := dates + older;
    var m := Newest(all);
    assert Newest(dates) in all;
    assert m in dates || m in older;
  }

  /**
   * The first gap ends the count: dates older than the day before the run
   * leave the streak as it was.
   */
  lemma HistoryPastGapIgnored(dates: seq<int>, older: seq<int>, today: int)
    requires dates != []
    requires forall d :: d in older ==> d < Newest(dates) - Streak(dates, today)
    ensures Streak(dates + older, today) == Streak(dates, today)
  {
    var all := dates + older;
    var newest := Newest(dates);
    var n := Streak(dates, today);
    NewestOfAppend(dates, older);
    StreakCharacterised(dates, today);
    StreakCharacterised(all, today);
    if n > 0 {
      assert forall d :: d in all <==> d in dates || d in older;
      assert RunEndsAt(all, newest, n);
      RunLengthUnique(all, newest, n, Streak(all, today));
    }
  }

  /** The streak never exceeds the number of distinct completed days. */
  lemma StreakAtMostDistinctDays(dates: seq<int>, today: int)
    ensures Streak(dates, today) <= |set d | d in dates|
  {
    StreakCharacterised(dates, today);
    var n := Streak(dates, today);
    if n > 0 {
      var run := Dates.DaysEndingAt(Newest(dates), n);
      var distinct := set d | d in dates;
      assert run <= distinct;
      Dates.SubsetSize(run, distinct);
    }
  }

  /**
   * A completed date later than today makes the streak 0, whatever the
   * rest of the history, because the newest date is then neither today
   * nor yesterday.
   */
  lemma FutureDateResetsStreak(dates: seq<int>, future: int, today: int)
    requires future > today
    ensures Streak(dates + [future], today) == 0
  {
    var all := dates + [future];
    StreakCharacterised(all, today);
    assert future in all;
  }

  /** Worked cases of the streak rule for single dates, t being today. */
  lemma StreakOfSingleDate(t: int)
    ensures Streak([t], t) == 1
    ensures Streak([t - 1], t) == 1
    ensures Streak([t - 2], t) == 0
  {
    StreakOfConsecutiveRun([t], t, 1, t);
    StreakOfConsecutiveRun([t - 1], t - 1, 1, t);
    StreakCharacterised([t - 2], t);
    assert Newest([t - 2]) == t - 2;
  }

  /** Four consecutive days ending today give a streak of 4, t being today. */
  lemma StreakOfFourDayRun(t: int)
    ensures Streak([t, t - 1, t - 2, t - 3], t) == 4
  {
    StreakOfConsecutiveRun([t, t - 1, t - 2, t - 3], t, 4, t);
  }

  /** A gap at t - 2 stops the count at 2, t being today. */
  lemma StreakStopsAtGap(t: int)
    ensures Streak([t, t - 1, t - 3], t) == 2
  {
    StreakOfConsecutiveRun([t, t - 1], t, 2, t);
    HistoryPastGapIgnored([t, t - 1], [t - 3], t);
    assert [t, t - 1] + [t - 3] == [t, t - 1, t - 3];
  }

  /** A repeated today counts once, t being today. */
  lemma StreakIgnoresRepeatedToday(t: int)
    ensures Streak([t, t, t - 1], t) == 2
  {
    StreakOfConsecutiveRun([t, t, t - 1], t, 2, t);
  }

  /**
   * `calculate_streak`: sorts the dates newest first, seeds the streak at
   * 1 when the newest date is today or yesterday (else returns 0) and walks
   * the remaining dates.
   */
  method CalculateStreak(completedDatesRaw: seq<int>, today: int) returns (streak: nat)
    ensures streak == Streak(completedDatesRaw, today)
    ensures completedDatesRaw == [] ==> streak == 0
    ensures completedDatesRaw != [] ==>
      (streak > 0 <==> Newest(completedDatesRaw) == today || Newest(completedDatesRaw) == today - 1)
    ensures completedDatesRaw != [] && streak > 0 ==>
      RunEndsAt(completedDatesRaw, Newest(completedDatesRaw), streak)
  {
    StreakCharacterised(completedDatesRaw, today);
    if |completedDatesRaw| == 0 {
      return 0;
    }
    var completed := SortDesc(completedDatesRaw);
    var yesterday := today - 1;
    var compareDate: int;
    if completed[0] == today {
      streak, compareDate := 1, yesterday;
    } else if completed[0] == yesterday {
      streak, compareDate := 1, yesterday - 1;
    } else {
      return 0;
    }
    var i := 1;
    while i < |completed|
      invariant 1 <= i <= |completed|
      invariant streak + RunFrom(completed[i..], compareDate) == RunFrom(completed, completed[0])
    {
      RunFromStep(completed, i, compareDate);
      if completed[i] == compareDate {
        streak := streak + 1;
        compareDate := compareDate - 1;
      } else if completed[i] < compareDate {
        break;
      }
      i := i + 1;
    }
  }
}
