/** The `/api/tasks` router: every handler runs after `authenticate`. */
module TaskRoutes {
  import opened Wrappers
  import opened Ordering
  import opened Schema
  import opened Crypto
  import opened Store
  import opened Http

  /** The JSON fields a task request may carry; `isCompleted` is read for its truthiness. */
  datatype TaskFields = TaskFields(
    title: Option<string>, description: Option<string>, dueDate: Option<string>,
    isCompleted: bool, energyLevel: Option<int>)

  const TaskNotFound: Response := Response(404, Error("Task not found"))

  /** `ORDER BY due_date, created_at`: NULL due dates first, then text order, then creation time. */
  predicate TaskBefore(a: TaskRow, b: TaskRow)
  {
    if a.dueDate == b.dueDate then a.createdAt <= b.createdAt
    else a.dueDate.None? || (b.dueDate.Some? && StrLe(a.dueDate.value, b.dueDate.value))
  }

  lemma TaskBeforeIsTotalPreorder()
    ensures TotalPreorder(TaskBefore)
  {
    forall a: TaskRow, b: TaskRow
      ensures TaskBefore(a, b) || TaskBefore(b, a)
    {
      if a.dueDate.Some? && b.dueDate.Some? {
        StrLeTotal(a.dueDate.value, b.dueDate.value);
      }
    }
    forall a: TaskRow, b: TaskRow, c: TaskRow | TaskBefore(a, b) && TaskBefore(b, c)
      ensures TaskBefore(a, c)
    {
      if a.dueDate.Some? && b.dueDate.Some? && c.dueDate.Some? {
        var x, y, z := a.dueDate.value, b.dueDate.value, c.dueDate.value;
        if x != y && y != z {
          StrLeTransitive(x, y, z);
          if x == z { StrLeAntisymmetric(x, y); }
        }
      }
    }
  }

  /** `rows` is exactly the caller's tasks, each once, in list order. */
  ghost predicate IsTaskListing(rows: seq<TaskRow>, tasks: map<int, TaskRow>, userId: int)
  {
    && SortedBy(rows, TaskBefore)
    && (forall k :: k in tasks && tasks[k].userId == userId ==> tasks[k] in rows)
    && (forall r :: r in rows ==> r.userId == userId && r.id in tasks && tasks[r.id] == r)
    && (forall r :: multiset(rows)[r] <= 1)
  }

  /** `SELECT ... WHERE id = ? AND user_id = ?`: a missing row and another user's row look the same. */
  function OwnedTask(tasks: map<int, TaskRow>, id: int, userId: int): (r: Option<TaskRow>)
    ensures r.Some? <==> id in tasks && tasks[id].userId == userId
    ensures r.Some? ==> r.value == tasks[id]
  {
    if id in tasks && tasks[id].userId == userId then Some(tasks[id]) else None
  }

  /** `GET /`: the caller's tasks in list order. */
  method ListTasks(db: Database, user: Option<Identity>) returns (resp: Response)
    requires db.Valid()
    ensures CallerId(user).None? ==> resp == AuthenticationRequired
    ensures CallerId(user).Some? ==>
      resp.status == 200 && resp.body.TaskList? && IsTaskListing(resp.body.tasks, db.tasks, CallerId(user).value)
  {
    if CallerId(user).None? {
      return AuthenticationRequired;
    }
    var uid := CallerId(user).value;
    TaskBeforeIsTotalPreorder();
    var rows := Select(db.tasks, (t: TaskRow) => t.userId == uid, TaskBefore);
    forall r | r in rows
      ensures r.userId == uid && r.id in db.tasks && db.tasks[r.id] == r
    {
      var k :| k in db.tasks && db.tasks[k] == r;
    }
    resp := Response(200, TaskList(rows));
  }

  /** `GET /:id`: the row when the caller owns it, otherwise 404. */
  method GetTask(db: Database, user: Option<Identity>, id: int) returns (resp: Response)
    requires db.Valid()
    ensures CallerId(user).None? ==> resp == AuthenticationRequired
    ensures CallerId(user).Some? ==>
      resp == match OwnedTask(db.tasks, id, CallerId(user).value)
              case None => TaskNotFound
              case Some(t) => Response(200, TaskJson(t))
  {
    if CallerId(user).None? {
      return AuthenticationRequired;
    }
    var task := OwnedTask(db.tasks, id, CallerId(user).value);
    if task.None? {
      return TaskNotFound;
    }
    resp := Response(200, TaskJson(task.value));
  }

  /**
   * `POST /`: a falsy title is 400; otherwise insert a task owned by the
   * caller with falsy optional fields stored as NULL. An energy level
   * outside 1..5 (the CHECK) or a caller without a user row (the foreign
   * key) makes the INSERT fail, answered as 500.
   */
  method CreateTask(db: Database, user: Option<Identity>, fields: TaskFields, now: int) returns (resp: Response)
    requires db.Valid()
    modifies db`tasks, db`nextTaskId
    ensures db.Valid()
    ensures CallerId(user).None? ==> resp == AuthenticationRequired && unchanged(db)
    ensures CallerId(user).Some? && Falsy(fields.title) ==> resp == Response(400, Error("Title is required")) && unchanged(db)
    ensures CallerId(user).Some? && !Falsy(fields.title) ==>
      var row := TaskRow(old(db.nextTaskId), CallerId(user).value, fields.title.value, OrNull(fields.description),
                         OrNull(fields.dueDate), DefaultIsCompleted, NumberOrNull(fields.energyLevel), now, now);
      if row.userId in old(db.users) && EnergyLevelAllowed(row.energyLevel) then
        && db.tasks == old(db.tasks)[row.id := row]
        && db.nextTaskId == old(db.nextTaskId) + 1
        && resp == Response(201, TaskJson(row))
      else
        resp == Response(500, Error("Failed to create task")) && unchanged(db)
  {
    if CallerId(user).None? {
      return AuthenticationRequired;
    }
    if Falsy(fields.title) {
      return Response(400, Error("Title is required"));
    }
    var id := db.nextTaskId;
    var row := TaskRow(id, CallerId(user).value, fields.title.value, OrNull(fields.description),
                       OrNull(fields.dueDate), DefaultIsCompleted, NumberOrNull(fields.energyLevel), now, now);
    if row.userId !in db.users || !EnergyLevelAllowed(row.energyLevel) {
      return Response(500, Error("Failed to create task"));
    }
    db.tasks := db.tasks[id := row];
    db.nextTaskId := id + 1;
    resp := Response(201, TaskJson(db.tasks[id]));
  }

  /**
   * `PUT /:id`: 404 unless the caller owns that task; then replace title,
   * description, due date, completion flag and energy level. The title is
   * not validated here: a missing one breaks NOT NULL and, like an energy
   * level outside 1..5, is answered as 500.
   */
  method UpdateTask(db: Database, user: Option<Identity>, id: int, fields: TaskFields, now: int) returns (resp: Response)
    requires db.Valid()
    modifies db`tasks
    ensures db.Valid()
    ensures CallerId(user).None? ==> resp == AuthenticationRequired && unchanged(db)
    ensures CallerId(user).Some? && OwnedTask(old(db.tasks), id, CallerId(user).value).None? ==>
      resp == TaskNotFound && unchanged(db)
    ensures CallerId(user).Some? && OwnedTask(old(db.tasks), id, CallerId(user).value).Some? ==>
      if fields.title.None? || !EnergyLevelAllowed(NumberOrNull(fields.energyLevel)) then
        resp == Response(500, Error("Failed to update task")) && unchanged(db)
      else
        var row := old(db.tasks)[id].(title := fields.title.value, description := OrNull(fields.description),
                                       dueDate := OrNull(fields.dueDate), isCompleted := FlagOf(fields.isCompleted),
                                       energyLevel := NumberOrNull(fields.energyLevel), updatedAt := now);
        db.tasks == old(db.tasks)[id := row] && resp == Response(200, TaskJson(row))
  {
    if CallerId(user).None? {
      return AuthenticationRequired;
    }
    if OwnedTask(db.tasks, id, CallerId(user).value).None? {
      return TaskNotFound;
    }
    if fields.title.None? || !EnergyLevelAllowed(NumberOrNull(fields.energyLevel)) {
      return Response(500, Error("Failed to update task"));
    }
    var row := db.tasks[id].(title := fields.title.value, description := OrNull(fields.description),
                             dueDate := OrNull(fields.dueDate), isCompleted := FlagOf(fields.isCompleted),
                             energyLevel := NumberOrNull(fields.energyLevel), updatedAt := now);
    db.tasks := db.tasks[id := row];
    resp := Response(200, TaskJson(db.tasks[id]));
  }

  /** `DELETE /:id`: 404 unless the caller owns that task; then remove exactly that row. */
  method DeleteTask(db: Database, user: Option<Identity>, id: int) returns (resp: Response)
    requires db.Valid()
    modifies db`tasks
    ensures db.Valid()
    ensures CallerId(user).None? ==> resp == AuthenticationRequired && unchanged(db)
    ensures CallerId(user).Some? && OwnedTask(old(db.tasks), id, CallerId(user).value).None? ==>
      resp == TaskNotFound && unchanged(db)
    ensures CallerId(user).Some? && OwnedTask(old(db.tasks), id, CallerId(user).value).Some? ==>
      db.tasks == old(db.tasks) - {id} && resp == Response(204, NoContent)
  {
    if CallerId(user).None? {
      return AuthenticationRequired;
    }
    if OwnedTask(db.tasks, id, CallerId(user).value).None? {
      return TaskNotFound;
    }
    db.tasks := db.tasks - {id};
    resp := Response(204, NoContent);
  }
}
