/**
 * The relational schema: one row datatype per table and the rules the
 * storage engine enforces on every statement (UNIQUE, NOT NULL, CHECK,
 * FOREIGN KEY ... ON DELETE CASCADE). A table is a map from row id to row.
 */
module Schema {
  import opened Wrappers

  /** A row of `users`; `password` holds the bcrypt digest. */
  datatype UserRow = UserRow(id: int, username: string, password: string, isAdmin: int, createdAt: int, updatedAt: int)

  /** A user as `getUserById` selects it: every column except `password`. */
  datatype PublicUser = PublicUser(id: int, username: string, isAdmin: int, createdAt: int, updatedAt: int)

  /** A row of `tasks`. */
  datatype TaskRow = TaskRow(
    id: int, userId: int, title: string, description: Option<string>, dueDate: Option<string>,
    isCompleted: int, energyLevel: Option<int>, createdAt: int, updatedAt: int)

  /** A row of `habits`. */
  datatype HabitRow = HabitRow(
    id: int, userId: int, name: string, description: Option<string>, isActive: int, createdAt: int, updatedAt: int)

  /** A row of `habit_completions`. */
  datatype CompletionRow = CompletionRow(id: int, habitId: int, completedDate: string, notes: Option<string>, createdAt: int)

  /** The constraint failure a caller tells apart from other errors (`SQLITE_CONSTRAINT_UNIQUE`). */
  datatype DbError = UniqueViolation

  /** Column defaults that inserts rely on. */
  const DefaultIsCompleted: int := 0
  const DefaultIsActive: int := 1

  /** The BOOLEAN columns hold 0 or 1. */
  predicate Flag(b: int)
  {
    b == 0 || b == 1
  }

  /** CHECK (energy_level BETWEEN 1 AND 5); NULL passes a CHECK. */
  predicate EnergyLevelAllowed(e: Option<int>)
  {
    e.None? || 1 <= e.value <= 5
  }

  predicate UsernamesUnique(users: map<int, UserRow>)
  {
    forall a, b :: a in users && b in users && users[a].username == users[b].username ==> a == b
  }

  /** UNIQUE (habit_id, completed_date). */
  predicate OneCompletionPerDay(completions: map<int, CompletionRow>)
  {
    forall a, b | a in completions && b in completions ::
      completions[a].habitId == completions[b].habitId && completions[a].completedDate == completions[b].completedDate ==> a == b
  }

  predicate UsersValid(users: map<int, UserRow>)
  {
    && (forall k :: k in users ==> 0 < k && users[k].id == k && Flag(users[k].isAdmin))
    && UsernamesUnique(users)
  }

  predicate TasksValid(tasks: map<int, TaskRow>, users: map<int, UserRow>)
  {
    forall k :: k in tasks ==>
      && 0 < k && tasks[k].id == k
      && tasks[k].userId in users
      && Flag(tasks[k].isCompleted)
      && EnergyLevelAllowed(tasks[k].energyLevel)
  }

  predicate HabitsValid(habits: map<int, HabitRow>, users: map<int, UserRow>)
  {
    forall k :: k in habits ==>
      0 < k && habits[k].id == k && habits[k].userId in users && Flag(habits[k].isActive)
  }

  predicate CompletionsValid(completions: map<int, CompletionRow>, habits: map<int, HabitRow>)
  {
    && (forall k :: k in completions ==> 0 < k && completions[k].id == k && completions[k].habitId in habits)
    && OneCompletionPerDay(completions)
  }

  /** Every rule of the schema holds of the four tables. */
  predicate Consistent(
    users: map<int, UserRow>, tasks: map<int, TaskRow>,
    habits: map<int, HabitRow>, completions: map<int, CompletionRow>)
  {
    UsersValid(users) && TasksValid(tasks, users) && HabitsValid(habits, users) && CompletionsValid(completions, habits)
  }

  /** The completions that survive when the habits in `gone` are deleted (ON DELETE CASCADE). */
  function CascadeCompletions(completions: map<int, CompletionRow>, gone: set<int>): (r: map<int, CompletionRow>)
    ensures forall k :: k in r ==> r[k].habitId !in gone
    ensures forall k :: k in completions ==> (k in r <==> completions[k].habitId !in gone)
    ensures forall k :: k in r ==> k in completions && r[k] == completions[k]
  {
    map k | k in completions && completions[k].habitId !in gone :: completions[k]
  }

  /**
   * `DELETE FROM habit_completions WHERE habit_id = ? AND completed_date = ?`:
   * no completion of that day is left, every other one stays as it was.
   */
  function RemoveCompletionsOn(completions: map<int, CompletionRow>, habitId: int, date: string): (r: map<int, CompletionRow>)
    ensures forall k :: k in r ==> !(r[k].habitId == habitId && r[k].completedDate == date)
    ensures forall k :: k in completions && !(completions[k].habitId == habitId && completions[k].completedDate == date) ==>
      k in r && r[k] == completions[k]
    ensures r.Keys <= completions.Keys
  {
    map k | k in completions && !(completions[k].habitId == habitId && completions[k].completedDate == date) :: completions[k]
  }

  /** The ids of the habits `userId` owns. */
  function HabitsOf(habits: map<int, HabitRow>, userId: int): (ids: set<int>)
    ensures forall k :: k in ids <==> k in habits && habits[k].userId == userId
  {
    set k | k in habits && habits[k].userId == userId
  }

  /** Deleting a habit and its completions keeps every rule, and leaves no completion of it. */
  lemma DeleteHabitKeepsConsistent(
    users: map<int, UserRow>, tasks: map<int, TaskRow>,
    habits: map<int, HabitRow>, completions: map<int, CompletionRow>, id: int)
    requires Consistent(users, tasks, habits, completions)
    ensures Consistent(users, tasks, habits - {id}, CascadeCompletions(completions, {id}))
    ensures forall k :: k in CascadeCompletions(completions, {id}) ==> CascadeCompletions(completions, {id})[k].habitId != id
  {
  }

  /**
   * Deleting a user cascades to the user's tasks and habits, and from those
   * habits to their completions; every rule still holds afterwards.
   */
  lemma DeleteUserKeepsConsistent(
    users: map<int, UserRow>, tasks: map<int, TaskRow>,
    habits: map<int, HabitRow>, completions: map<int, CompletionRow>, id: int)
    requires Consistent(users, tasks, habits, completions)
    ensures
      var tasks' := map k | k in tasks && tasks[k].userId != id :: tasks[k];
      var habits' := habits - HabitsOf(habits, id);
      && Consistent(users - {id}, tasks', habits', CascadeCompletions(completions, HabitsOf(habits, id)))
      && (forall k :: k in tasks' ==> tasks'[k].userId != id)
      && (forall k :: k in habits' ==> habits'[k].userId != id)
  {
  }
}
