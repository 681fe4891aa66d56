/** The database connection: the four tables and their AUTOINCREMENT counters. */
module Store {
  import opened Schema

  /** Every id in `keys` was handed out before `next`. */
  predicate Below(keys: set<int>, next: int)
  {
    forall k :: k in keys ==> k < next
  }

  class Database {
    var users: map<int, UserRow>
    var tasks: map<int, TaskRow>
    var habits: map<int, HabitRow>
    var completions: map<int, CompletionRow>
    /** The id the next INSERT into each table receives; ids are never reused. */
    var nextUserId: int
    var nextTaskId: int
    var nextHabitId: int
    var nextCompletionId: int

    ghost predicate Valid()
      reads this
    {
      && Consistent(users, tasks, habits, completions)
      && 0 < nextUserId && Below(users.Keys, nextUserId)
      && 0 < nextTaskId && Below(tasks.Keys, nextTaskId)
      && 0 < nextHabitId && Below(habits.Keys, nextHabitId)
      && 0 < nextCompletionId && Below(completions.Keys, nextCompletionId)
    }

    /** A freshly created database file: empty tables, first id 1. */
    constructor ()
      ensures Valid()
      ensures users == map[] && tasks == map[] && habits == map[] && completions == map[]
      ensures nextUserId == 1 && nextTaskId == 1 && nextHabitId == 1 && nextCompletionId == 1
    {
      users, tasks, habits, completions := map[], map[], map[], map[];
      nextUserId, nextTaskId, nextHabitId, nextCompletionId := 1, 1, 1, 1;
    }

    /**
     * `DELETE FROM users WHERE id = ?` with foreign keys on: the user's
     * tasks and habits go too, and so do those habits' completions.
     */
    method DeleteUser(id: int)
      requires Valid()
      modifies this`users, this`tasks, this`habits, this`completions
      ensures Valid()
      ensures users == old(users) - {id}
      ensures tasks == map k | k in old(tasks) && old(tasks)[k].userId != id :: old(tasks)[k]
      ensures habits == old(habits) - HabitsOf(old(habits), id)
      ensures completions == CascadeCompletions(old(completions), HabitsOf(old(habits), id))
    {
      DeleteUserKeepsConsistent(users, tasks, habits, completions, id);
      var gone := HabitsOf(habits, id);
      users := users - {id};
      tasks := map k | k in tasks && tasks[k].userId != id :: tasks[k];
      completions := CascadeCompletions(completions, gone);
      habits := habits - gone;
    }
  }
}
