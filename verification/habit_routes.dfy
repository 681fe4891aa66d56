/** The `/api/habits` router: every handler runs after `authenticate`. */
module HabitRoutes {
  import opened Wrappers
  import opened Ordering
  import opened Schema
  import opened Crypto
  import opened Store
  import opened Http

  /** The JSON fields a habit request may carry; `isActive` is read for its truthiness. */
  datatype HabitFields = HabitFields(name: Option<string>, description: Option<string>, isActive: bool)

  const HabitNotFound: Response := Response(404, Error("Habit not found"))

  /** `ORDER BY name`. */
  predicate NameBefore(a: HabitRow, b: HabitRow)
  {
    StrLe(a.name, b.name)
  }

  /** `ORDER BY completed_date DESC`. */
  predicate LaterDateFirst(a: CompletionRow, b: CompletionRow)
  {
    StrLe(b.completedDate, a.completedDate)
  }

  lemma NameBeforeIsTotalPreorder()
    ensures TotalPreorder(NameBefore)
  {
    forall a: HabitRow, b: HabitRow
      ensures NameBefore(a, b) || NameBefore(b, a)
    {
      StrLeTotal(a.name, b.name);
    }
    forall a: HabitRow, b: HabitRow, c: HabitRow | NameBefore(a, b) && NameBefore(b, c)
      ensures NameBefore(a, c)
    {
      StrLeTransitive(a.name, b.name, c.name);
    }
  }

  lemma LaterDateFirstIsTotalPreorder()
    ensures TotalPreorder(LaterDateFirst)
  {
    forall a: CompletionRow, b: CompletionRow
      ensures LaterDateFirst(a, b) || LaterDateFirst(b, a)
    {
      StrLeTotal(a.completedDate, b.completedDate);
    }
    forall a: CompletionRow, b: CompletionRow, c: CompletionRow | LaterDateFirst(a, b) && LaterDateFirst(b, c)
      ensures LaterDateFirst(a, c)
    {
      StrLeTransitive(c.completedDate, b.completedDate, a.completedDate);
    }
  }

  /** `rows` is exactly the caller's habits, each once, ordered by name. */
  ghost predicate IsHabitListing(rows: seq<HabitRow>, habits: map<int, HabitRow>, userId: int)
  {
    && SortedBy(rows, NameBefore)
    && (forall k :: k in habits && habits[k].userId == userId ==> habits[k] in rows)
    && (forall r :: r in rows ==> r.userId == userId && r.id in habits && habits[r.id] == r)
    && (forall r :: multiset(rows)[r] <= 1)
  }

  /** `rows` is exactly the habit's completions, each once, latest date first. */
  ghost predicate IsCompletionListing(rows: seq<CompletionRow>, completions: map<int, CompletionRow>, habitId: int)
  {
    && SortedBy(rows, LaterDateFirst)
    && (forall k :: k in completions && completions[k].habitId == habitId ==> completions[k] in rows)
    && (forall r :: r in rows ==> r.habitId == habitId && r.id in completions && completions[r.id] == r)
    && (forall r :: multiset(rows)[r] <= 1)
  }

  /** `SELECT ... WHERE id = ? AND user_id = ?`: a missing row and another user's row look the same. */
  function OwnedHabit(habits: map<int, HabitRow>, id: int, userId: int): (r: Option<HabitRow>)
    ensures r.Some? <==> id in habits && habits[id].userId == userId
    ensures r.Some? ==> r.value == habits[id]
  {
    if id in habits && habits[id].userId == userId then Some(habits[id]) else None
  }

  /** `GET /`: the caller's habits ordered by name. */
  method ListHabits(db: Database, user: Option<Identity>) returns (resp: Response)
    requires db.Valid()
    ensures CallerId(user).None? ==> resp == AuthenticationRequired
    ensures CallerId(user).Some? ==>
      resp.status == 200 && resp.body.HabitList? && IsHabitListing(resp.body.habits, db.habits, CallerId(user).value)
  {
    if CallerId(user).None? {
      return AuthenticationRequired;
    }
    var uid := CallerId(user).value;
    NameBeforeIsTotalPreorder();
    var rows := Select(db.habits, (h: HabitRow) => h.userId == uid, NameBefore);
    forall r | r in rows
      ensures r.userId == uid && r.id in db.habits && db.habits[r.id] == r
    {
      var k :| k in db.habits && db.habits[k] == r;
    }
    resp := Response(200, HabitList(rows));
  }

  /** `GET /:id`: the caller's habit with its completions, latest date first; otherwise 404. */
  method GetHabit(db: Database, user: Option<Identity>, id: int) returns (resp: Response)
    requires db.Valid()
    ensures CallerId(user).None? ==> resp == AuthenticationRequired
    ensures CallerId(user).Some? && OwnedHabit(db.habits, id, CallerId(user).value).None? ==> resp == HabitNotFound
    ensures CallerId(user).Some? && OwnedHabit(db.habits, id, CallerId(user).value).Some? ==>
      && resp.status == 200 && resp.body.HabitDetail?
      && resp.body.habit == db.habits[id]
      && IsCompletionListing(resp.body.completions, db.completions, id)
  {
    if CallerId(user).None? {
      return AuthenticationRequired;
    }
    var habit := OwnedHabit(db.habits, id, CallerId(user).value);
    if habit.None? {
      return HabitNotFound;
    }
    LaterDateFirstIsTotalPreorder();
    var rows := Select(db.completions, (c: CompletionRow) => c.habitId == id, LaterDateFirst);
    forall r | r in rows
      ensures r.habitId == id && r.id in db.completions && db.completions[r.id] == r
    {
      var k :| k in db.completions && db.completions[k] == r;
    }
    resp := Response(200, HabitDetail(habit.value, rows));
  }

  /**
   * `POST /`: a falsy name is 400; otherwise insert an active habit owned
   * by the caller, with a falsy description stored as NULL. A caller
   * without a user row breaks the foreign key, answered as 500.
   */
  method CreateHabit(db: Database, user: Option<Identity>, fields: HabitFields, now: int) returns (resp: Response)
    requires db.Valid()
    modifies db`habits, db`nextHabitId
    ensures db.Valid()
    ensures CallerId(user).None? ==> resp == AuthenticationRequired && unchanged(db)
    ensures CallerId(user).Some? && Falsy(fields.name) ==> resp == Response(400, Error("Name is required")) && unchanged(db)
    ensures CallerId(user).Some? && !Falsy(fields.name) ==>
      var row := HabitRow(old(db.nextHabitId), CallerId(user).value, fields.name.value, OrNull(fields.description),
                          DefaultIsActive, now, now);
      if row.userId in old(db.users) then
        && db.habits == old(db.habits)[row.id := row]
        && db.nextHabitId == old(db.nextHabitId) + 1
        && resp == Response(201, HabitJson(row))
      else
        resp == Response(500, Error("Failed to create habit")) && unchanged(db)
  {
    if CallerId(user).None? {
      return AuthenticationRequired;
    }
    if Falsy(fields.name) {
      return Response(400, Error("Name is required"));
    }
    var id := db.nextHabitId;
    var row := HabitRow(id, CallerId(user).value, fields.name.value, OrNull(fields.description), DefaultIsActive, now, now);
    if row.userId !in db.users {
      return Response(500, Error("Failed to create habit"));
    }
    db.habits := db.habits[id := row];
    db.nextHabitId := id + 1;
    resp := Response(201, HabitJson(db.habits[id]));
  }

  /**
   * `PUT /:id`: ownership is checked before the name, so another user's
   * habit is 404 even without a name; then name, description and the
   * active flag are replaced.
   */
  method UpdateHabit(db: Database, user: Option<Identity>, id: int, fields: HabitFields, now: int) returns (resp: Response)
    requires db.Valid()
    modifies db`habits
    ensures db.Valid()
    ensures CallerId(user).None? ==> resp == AuthenticationRequired && unchanged(db)
    ensures CallerId(user).Some? && OwnedHabit(old(db.habits), id, CallerId(user).value).None? ==>
      resp == HabitNotFound && unchanged(db)
    ensures CallerId(user).Some? && OwnedHabit(old(db.habits), id, CallerId(user).value).Some? ==>
      if Falsy(fields.name) then
        resp == Response(400, Error("Name is required")) && unchanged(db)
      else
        var row := old(db.habits)[id].(name := fields.name.value, description := OrNull(fields.description),
                                        isActive := FlagOf(fields.isActive), updatedAt := now);
        db.habits == old(db.habits)[id := row] && resp == Response(200, HabitJson(row))
  {
    if CallerId(user).None? {
      return AuthenticationRequired;
    }
    if OwnedHabit(db.habits, id, CallerId(user).value).None? {
      return HabitNotFound;
    }
    if Falsy(fields.name) {
      return Response(400, Error("Name is required"));
    }
    var row := db.habits[id].(name := fields.name.value, description := OrNull(fields.description),
                              isActive := FlagOf(fields.isActive), updatedAt := now);
    db.habits := db.habits[id := row];
    resp := Response(200, HabitJson(db.habits[id]));
  }

  /** `DELETE /:id`: 404 unless the caller owns the habit; then remove it and, by the cascade, its completions. */
  method DeleteHabit(db: Database, user: Option<Identity>, id: int) returns (resp: Response)
    requires db.Valid()
    modifies db`habits, db`completions
    ensures db.Valid()
    ensures CallerId(user).None? ==> resp == AuthenticationRequired && unchanged(db)
    ensures CallerId(user).Some? && OwnedHabit(old(db.habits), id, CallerId(user).value).None? ==>
      resp == HabitNotFound && unchanged(db)
    ensures CallerId(user).Some? && OwnedHabit(old(db.habits), id, CallerId(user).value).Some? ==>
      && db.habits == old(db.habits) - {id}
      && db.completions == CascadeCompletions(old(db.completions), {id})
      && resp == Response(204, NoContent)
  {
    if CallerId(user).None? {
      return AuthenticationRequired;
    }
    if OwnedHabit(db.habits, id, CallerId(user).value).None? {
      return HabitNotFound;
    }
    DeleteHabitKeepsConsistent(db.users, db.tasks, db.habits, db.completions, id);
    db.completions := CascadeCompletions(db.completions, {id});
    db.habits := db.habits - {id};
    resp := Response(204, NoContent);
  }

  /**
   * `POST /:id/complete`: a falsy date is 400, checked before ownership;
   * then, as one transaction, overwrite the notes of the day's completion
   * or insert one. Both branches answer 201 with the day's row.
   */
  method CompleteHabit(db: Database, user: Option<Identity>, id: int, date: Option<string>, notes: Option<string>, now: int)
    returns (resp: Response)
    requires db.Valid()
    modifies db`completions, db`nextCompletionId
    ensures db.Valid()
    ensures CallerId(user).None? ==> resp == AuthenticationRequired && unchanged(db)
    ensures CallerId(user).Some? && Falsy(date) ==> resp == Response(400, Error("Date is required")) && unchanged(db)
    ensures CallerId(user).Some? && !Falsy(date) && OwnedHabit(old(db.habits), id, CallerId(user).value).None? ==>
      resp == HabitNotFound && unchanged(db)
    ensures CallerId(user).Some? && !Falsy(date) && OwnedHabit(old(db.habits), id, CallerId(user).value).Some? ==>
      var u := Upsert(old(db.completions), id, date.value, OrNull(notes), old(db.nextCompletionId), now);
      && db.completions == u.table
      && db.nextCompletionId == (if u.row.id in old(db.completions) then old(db.nextCompletionId) else old(db.nextCompletionId) + 1)
      && resp == Response(201, CompletionJson(u.row))
  {
    if CallerId(user).None? {
      return AuthenticationRequired;
    }
    if Falsy(date) {
      return Response(400, Error("Date is required"));
    }
    if OwnedHabit(db.habits, id, CallerId(user).value).None? {
      return HabitNotFound;
    }
    // The transaction: read the day's completion, then update or insert.
    var freshId := db.nextCompletionId;
    UpsertEffect(db.completions, id, date.value, OrNull(notes), freshId, now);
    var u := Upsert(db.completions, id, date.value, OrNull(notes), freshId, now);
    if u.row.id !in db.completions {
      db.nextCompletionId := freshId + 1;
    }
    db.completions := u.table;
    resp := Response(201, CompletionJson(u.row));
  }

  /**
   * `DELETE /:id/complete/:date`: 404 unless the caller owns the habit;
   * then remove the completions of that day, answering 204 even when there
   * were none.
   */
  method UncompleteHabit(db: Database, user: Option<Identity>, id: int, date: string) returns (resp: Response)
    requires db.Valid()
    modifies db`completions
    ensures db.Valid()
    ensures CallerId(user).None? ==> resp == AuthenticationRequired && unchanged(db)
    ensures CallerId(user).Some? && OwnedHabit(old(db.habits), id, CallerId(user).value).None? ==>
      resp == HabitNotFound && unchanged(db)
    ensures CallerId(user).Some? && OwnedHabit(old(db.habits), id, CallerId(user).value).Some? ==>
      && db.completions == RemoveCompletionsOn(old(db.completions), id, date)
      && resp == Response(204, NoContent)
  {
    if CallerId(user).None? {
      return AuthenticationRequired;
    }
    if OwnedHabit(db.habits, id, CallerId(user).value).None? {
      return HabitNotFound;
    }
    db.completions := RemoveCompletionsOn(db.completions, id, date);
    resp := Response(204, NoContent);
  }

  /** The id of the completion of `habitId` on `date`, if there is one. */
  function FindCompletion(completions: map<int, CompletionRow>, habitId: int, date: string): (r: Option<int>)
    requires OneCompletionPerDay(completions)
    ensures r.Some? ==> r.value in completions && completions[r.value].habitId == habitId && completions[r.value].completedDate == date
    ensures r.None? ==> forall k :: k in completions ==> !(completions[k].habitId == habitId && completions[k].completedDate == date)
  {
    if exists k :: k in completions && completions[k].habitId == habitId && completions[k].completedDate == date then
      var k :| k in completions && completions[k].habitId == habitId && completions[k].completedDate == date;
      Some(k)
    else
      None
  }

  /** The completions table after an upsert, and the row the upsert left for the day. */
  datatype Upserted = Upserted(table: map<int, CompletionRow>, row: CompletionRow)

  /**
   * The body of the completion transaction: overwrite the notes of the
   * day's existing completion, or insert a new one under `freshId`.
   */
  function Upsert(completions: map<int, CompletionRow>, habitId: int, date: string, notes: Option<string>, freshId: int, now: int)
    : (u: Upserted)
    requires OneCompletionPerDay(completions)
    ensures u.row.habitId == habitId && u.row.completedDate == date && u.row.notes == notes
    ensures FindCompletion(completions, habitId, date).Some? ==>
      var k := FindCompletion(completions, habitId, date).value;
      u.row == completions[k].(notes := notes) && u.table == completions[k := u.row]
    ensures FindCompletion(completions, habitId, date).None? ==>
      u.row == CompletionRow(freshId, habitId, date, notes, now) && u.table == completions[freshId := u.row]
  {
    match FindCompletion(completions, habitId, date)
    case Some(k) =>
      var row := completions[k].(notes := notes);
      Upserted(completions[k := row], row)
    case None =>
      var row := CompletionRow(freshId, habitId, date, notes, now);
      Upserted(completions[freshId := row], row)
  }

  /**
   * After an upsert exactly one completion exists for (habit, date), it
   * carries the new notes, an existing row keeps its id and creation time, a
   * new row takes the fresh id and `now`, and every other completion is
   * untouched.
   */
  lemma UpsertEffect(
    completions: map<int, CompletionRow>, habitId: int, date: string, notes: Option<string>, freshId: int, now: int)
    requires OneCompletionPerDay(completions)
    requires forall k :: k in completions ==> completions[k].id == k
    requires freshId !in completions
    ensures
      var u := Upsert(completions, habitId, date, notes, freshId, now);
      && u.row.id in u.table && u.table[u.row.id] == u.row
      && u.row.habitId == habitId && u.row.completedDate == date && u.row.notes == notes
      && (FindCompletion(completions, habitId, date).Some? ==>
            u.row.id in completions && u.row.createdAt == completions[u.row.id].createdAt)
      && (FindCompletion(completions, habitId, date).None? ==> u.row == CompletionRow(freshId, habitId, date, notes, now))
      && (forall k :: k in u.table && u.table[k].habitId == habitId && u.table[k].completedDate == date ==> k == u.row.id)
      && u.table.Keys == completions.Keys + {u.row.id}
      && (forall k :: k in completions && k != u.row.id ==> u.table[k] == completions[k])
      && (u.row.id in completions <==> FindCompletion(completions, habitId, date).Some?)
      && OneCompletionPerDay(u.table)
      && (forall k :: k in u.table ==> u.table[k].id == k)
  {
    var u := Upsert(completions, habitId, date, notes, freshId, now);
    match FindCompletion(completions, habitId, date)
    case Some(k) =>
      assert u.row.id == k;
    case None =>
      assert u.row.id == freshId;
  }

  /**
   * Completing the same day twice keeps the first completion's id and
   * creation time and the second call's notes: the same table as one
   * upsert with the later notes.
   */
  lemma {:induction false} UpsertTwice(
    completions: map<int, CompletionRow>, habitId: int, date: string,
    notes1: Option<string>, notes2: Option<string>, freshId1: int, freshId2: int, now1: int, now2: int)
    requires OneCompletionPerDay(completions)
    requires forall k :: k in completions ==> completions[k].id == k
    requires freshId1 !in completions
    ensures
      var first := Upsert(completions, habitId, date, notes1, freshId1, now1);
      OneCompletionPerDay(first.table) &&
      var second := Upsert(first.table, habitId, date, notes2, freshId2, now2);
      && second.row.id == first.row.id
      && second.row.notes == notes2
      && second.table == Upsert(completions, habitId, date, notes2, freshId1, now1).table
  {
    UpsertEffect(completions, habitId, date, notes1, freshId1, now1);
    var first := Upsert(completions, habitId, date, notes1, freshId1, now1);
    assert FindCompletion(first.table, habitId, date) == Some(first.row.id);
  }
}
