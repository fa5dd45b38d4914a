/**
 * The habit records table, keyed by (habit id, record date), and the two
 * writes the service makes to it: logging a completion (an upsert whose
 * update depends on the habit's completion method) and removing today's
 * record of a habit.
 */
module RecordTable {

  import opened Wrappers
  import opened Progress

  /** The key of a record: (habit id, record date). */
  type RecordKey = (int, int)

  /** The quantity stored under each key. */
  type Table = map<RecordKey, nat>

  /**
   * The table after logging `amount` under `key`: for boolean habits a new
   * key gets quantity 1 and an existing one is left as it is; for every
   * other habit a new key gets `amount` and an existing one grows by it.
   */
  function Logged(table: Table, key: RecordKey, completionMethod: CompletionMethod, amount: nat): (after: Table)
    ensures after.Keys == table.Keys + {key}
    ensures forall k :: k in table && k != key ==> after[k] == table[k]
    ensures completionMethod == Boolean && key !in table ==> after[key] == 1
    ensures completionMethod == Boolean && key in table ==> after[key] == table[key]
    ensures completionMethod != Boolean && key !in table ==> after[key] == amount
    ensures completionMethod != Boolean && key in table ==> after[key] == table[key] + amount
  {
    if completionMethod == Boolean then
      if key in table then table else table[key := 1]
    else if key in table then table[key := table[key] + amount]
    else table[key := amount]
  }

  /** Logging a boolean habit twice on one day is the same as logging it once. */
  lemma BooleanLogIdempotent(table: Table, key: RecordKey, first: nat, second: nat)
    ensures Logged(Logged(table, key, Boolean, first), key, Boolean, second) == Logged(table, key, Boolean, first)
  {
  }

  /** Logging a non-boolean habit twice on one day is logging the sum once. */
  lemma QuantityLogsAccumulate(table: Table, key: RecordKey, completionMethod: CompletionMethod, first: nat, second: nat)
    requires completionMethod != Boolean
    ensures Logged(Logged(table, key, completionMethod, first), key, completionMethod, second)
      == Logged(table, key, completionMethod, first + second)
  {
  }

  /** The rows of one habit, each day once, with the quantities the table stores. */
  ghost predicate ListsHabit(table: Table, habitId: int, rows: seq<Record>) {
    && (forall i, j :: 0 <= i < j < |rows| ==> rows[i].date != rows[j].date)
    && (forall i :: 0 <= i < |rows| ==>
          (habitId, rows[i].date) in table && table[(habitId, rows[i].date)] == rows[i].quantity)
    && (forall k :: k in table && k.0 == habitId ==> HasRecord(rows, k.1))
  }

  /** Over rows with distinct days that agree with the table, a day's sum is its stored quantity. */
  lemma {:induction false} DaySumOfDistinctRows(table: Table, habitId: int, rows: seq<Record>, day: int)
    requires forall i, j :: 0 <= i < j < |rows| ==> rows[i].date != rows[j].date
    requires forall i :: 0 <= i < |rows| ==>
      (habitId, rows[i].date) in table && table[(habitId, rows[i].date)] == rows[i].quantity
    ensures DaySum(rows, day) == if HasRecord(rows, day) then table[(habitId, day)] else 0
  {
    if rows != [] {
      var rest := rows[1..];
      assert forall i :: 0 <= i < |rest| ==> rest[i] == rows[i + 1];
      DaySumOfDistinctRows(table, habitId, rest, day);
      if rows[0].date == day {
        assert forall i :: 0 <= i < |rest| ==> rest[i].date != day;
      } else if HasRecord(rows, day) {
        var i :| 0 <= i < |rows| && rows[i].date == day;
        assert rest[i - 1].date == day;
      }
    }
  }

  /** What the streak and aggregate queries see of a day is what the table stores for it. */
  lemma DaySumMatchesTable(table: Table, habitId: int, rows: seq<Record>, day: int)
    requires ListsHabit(table, habitId, rows)
    ensures HasRecord(rows, day) <==> (habitId, day) in table
    ensures DaySum(rows, day) == if (habitId, day) in table then table[(habitId, day)] else 0
  {
    DaySumOfDistinctRows(table, habitId, rows, day);
    if (habitId, day) in table {
      var k := (habitId, day);
      assert k.0 == habitId && k in table;
    }
  }

  /** Logging `amount` for a non-boolean habit adds it to that day's total and to no other day's. */
  lemma LoggedQuantityAddsToDay(table: Table, habitId: int, day: int, completionMethod: CompletionMethod,
                                amount: nat, before: seq<Record>, after: seq<Record>)
    requires completionMethod != Boolean
    requires ListsHabit(table, habitId, before)
    requires ListsHabit(Logged(table, (habitId, day), completionMethod, amount), habitId, after)
    ensures HasRecord(after, day)
    ensures DaySum(after, day) == DaySum(before, day) + amount
    ensures forall other :: other != day ==> DaySum(after, other) == DaySum(before, other)
  {
    var logged := Logged(table, (habitId, day), completionMethod, amount);
    DaySumMatchesTable(table, habitId, before, day);
    DaySumMatchesTable(logged, habitId, after, day);
    forall other | other != day
      ensures DaySum(after, other) == DaySum(before, other)
    {
      DaySumMatchesTable(table, habitId, before, other);
      DaySumMatchesTable(logged, habitId, after, other);
    }
  }

  /** Logging a boolean habit leaves the day recorded, with quantity 1 if it was new and unchanged otherwise. */
  lemma LoggedBooleanCompletesDay(table: Table, habitId: int, day: int, amount: nat,
                                  before: seq<Record>, after: seq<Record>)
    requires ListsHabit(table, habitId, before)
    requires ListsHabit(Logged(table, (habitId, day), Boolean, amount), habitId, after)
    ensures HasRecord(after, day)
    ensures DaySum(after, day) == if HasRecord(before, day) then DaySum(before, day) else 1
    ensures forall other :: other != day ==> DaySum(after, other) == DaySum(before, other)
  {
    var logged := Logged(table, (habitId, day), Boolean, amount);
    DaySumMatchesTable(table, habitId, before, day);
    DaySumMatchesTable(logged, habitId, after, day);
    forall other | other != day
      ensures DaySum(after, other) == DaySum(before, other)
    {
      DaySumMatchesTable(table, habitId, before, other);
      DaySumMatchesTable(logged, habitId, after, other);
    }
  }

  /** Removing today's key leaves the habit not completed today and every other day as it was. */
  lemma RemovedTodayClearsOnlyToday(table: Table, habitId: int, today: int,
                                    before: seq<Record>, after: seq<Record>)
    requires ListsHabit(table, habitId, before)
    requires ListsHabit(table - {(habitId, today)}, habitId, after)
    ensures !IsCompletedToday(after, today)
    ensures forall other :: other != today ==> DaySum(after, other) == DaySum(before, other)
  {
    var removed := table - {(habitId, today)};
    DaySumMatchesTable(removed, habitId, after, today);
    forall other | other != today
      ensures DaySum(after, other) == DaySum(before, other)
    {
      DaySumMatchesTable(table, habitId, before, other);
      DaySumMatchesTable(removed, habitId, after, other);
    }
  }

  /** How a write request ended: done, rejected for a missing habit id, or for an unknown habit. */
  datatype Status = Done | MissingHabitId | HabitNotFound

  /** The habits table (the columns the writes read) and the habit records table. */
  class HabitStore {
    var habits: map<int, Habit>
    var records: Table

    /** Every record belongs to a stored habit. */
    ghost predicate Valid()
      reads this
    {
      forall k :: k in records ==> k.0 in habits
    }

    constructor (habits: map<int, Habit>)
      ensures Valid()
      ensures this.habits == habits && records == map[]
    {
      this.habits := habits;
      records := map[];
    }

    /**
     * `add_habit_record`: rejects a zero habit id and an unknown habit;
     * otherwise logs the supplied quantity (1 when none is supplied)
     * under (habit id, record date) by the habit's completion method.
     */
    method AddHabitRecord(habitId: int, recordDate: int, quantityCompleted: Option<nat>) returns (status: Status)
      requires Valid()
      modifies this`records
      ensures Valid()
      ensures status == (if habitId == 0 then MissingHabitId else if habitId !in habits then HabitNotFound else Done)
      ensures status == Done ==> records == Logged(old(records), (habitId, recordDate),
                                                   habits[habitId].completionMethod, quantityCompleted.GetOr(1))
      ensures status != Done ==> records == old(records)
    {
      var quantityToAdd := quantityCompleted.GetOr(1);
      if habitId == 0 {
        return MissingHabitId;
      }
      if habitId !in habits {
        return HabitNotFound;
      }
      records := Logged(records, (habitId, recordDate), habits[habitId].completionMethod, quantityToAdd);
      status := Done;
    }

    /**
     * `delete_habit_record_today`: rejects an absent or zero habit id and
     * an unknown habit; otherwise removes the (habit id, today) record, if
     * any, and reports whether one was removed.
     */
    method DeleteHabitRecordToday(habitId: Option<int>, today: int) returns (status: Status, deleted: bool)
      requires Valid()
      modifies this`records
      ensures Valid()
      ensures status == (if habitId.None? || habitId.value == 0 then MissingHabitId
                         else if habitId.value !in habits then HabitNotFound
                         else Done)
      ensures status == Done ==> records == old(records) - {(habitId.value, today)}
      ensures status == Done ==> deleted == ((habitId.value, today) in old(records))
      ensures status != Done ==> records == old(records) && !deleted
    {
      if habitId.None? || habitId.value == 0 {
        return MissingHabitId, false;
      }
      var id := habitId.value;
      if id !in habits {
        return HabitNotFound, false;
      }
      deleted := (id, today) in records;
      records := records - {(id, today)};
      status := Done;
    }
  }
}
