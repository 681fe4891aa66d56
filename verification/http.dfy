/** Requests and responses as the route handlers see them. */
module Http {
  import opened Wrappers
  import opened Schema
  import opened Crypto

  /** JSON response bodies. */
  datatype Body =
    | Error(message: string)
    | NoContent
    | UserJson(user: PublicUser)
    | UserList(users: seq<PublicUser>)
    | Session(identity: Identity, token: string)
    | TaskJson(task: TaskRow)
    | TaskList(tasks: seq<TaskRow>)
    | HabitJson(habit: HabitRow)
    | HabitDetail(habit: HabitRow, completions: seq<CompletionRow>)
    | HabitList(habits: seq<HabitRow>)
    | CompletionJson(completion: CompletionRow)

  datatype Response = Response(status: int, body: Body)

  /** What every resource handler answers when the request carries no user id. */
  const AuthenticationRequired: Response := Response(401, Error("Authentication required"))

  /** `req.user?.id`, with `!userId` read as absent: no user, or the falsy id 0. */
  function CallerId(user: Option<Identity>): (r: Option<int>)
    ensures r.None? <==> user.None? || user.value.id == 0
    ensures r.Some? ==> r.value == user.value.id && r.value != 0
  {
    if user.Some? && user.value.id != 0 then Some(user.value.id) else None
  }

  /** JavaScript falsiness of an optional string field: missing, null or "". */
  predicate Falsy(s: Option<string>)
  {
    s.None? || s.value == ""
  }

  /** `s || null`. */
  function OrNull(s: Option<string>): (r: Option<string>)
    ensures r.None? <==> Falsy(s)
    ensures r.Some? ==> r == s && r.value != ""
  {
    if Falsy(s) then None else s
  }

  /** `n || null` for a number: 0 is falsy. */
  function NumberOrNull(n: Option<int>): (r: Option<int>)
    ensures r.None? <==> (n.None? || n.value == 0)
    ensures r.Some? ==> r == n
  {
    if n.None? || n.value == 0 then None else n
  }

  /** `flag ? 1 : 0`. */
  function FlagOf(b: bool): (r: int)
    ensures Flag(r) && (r == 1 <==> b)
  {
    if b then 1 else 0
  }
}
