/** The credential store over the `users` table. */
module Credentials {
  import opened Wrappers
  import opened Schema
  import opened Crypto
  import opened Store

  /** The user row without its `password` column. */
  function Strip(u: UserRow): (p: PublicUser)
    ensures p.id == u.id && p.username == u.username && p.isAdmin == u.isAdmin
    ensures p.createdAt == u.createdAt && p.updatedAt == u.updatedAt
  {
    PublicUser(u.id, u.username, u.isAdmin, u.createdAt, u.updatedAt)
  }

  /** The stripped record does not depend on the digest: nothing of the password survives. */
  lemma StripIgnoresPassword(u: UserRow, digest: string)
    ensures Strip(u.(password := digest)) == Strip(u)
  {
  }

  /** Some user is called `username`. */
  predicate UsernameTaken(users: map<int, UserRow>, username: string)
  {
    exists k :: k in users && users[k].username == username
  }

  /** `getUserByUsername`: the whole row, password digest included. */
  function GetUserByUsername(users: map<int, UserRow>, username: string): (r: Option<UserRow>)
    requires UsernamesUnique(users)
    ensures r.Some? <==> UsernameTaken(users, username)
    ensures r.Some? ==> r.value.username == username && exists k :: k in users && users[k] == r.value
  {
    if exists k :: k in users && users[k].username == username then
      var k :| k in users && users[k].username == username;
      Some(users[k])
    else
      None
  }

  /** `getUserById`: the row without the password column, if the id exists. */
  function GetUserById(users: map<int, UserRow>, id: int): (r: Option<PublicUser>)
    ensures r.Some? <==> id in users
    ensures r.Some? ==> r.value == Strip(users[id])
  {
    if id in users then Some(Strip(users[id])) else None
  }

  /**
   * `validateCredentials`: the user called `username` whose digest matches
   * `password`, without the digest. An unknown name and a wrong password
   * both give None.
   */
  function ValidateCredentials(users: map<int, UserRow>, hasher: PasswordHasher, username: string, password: string): (r: Option<PublicUser>)
    requires UsernamesUnique(users)
    ensures r.Some? <==> exists k :: k in users && users[k].username == username && hasher.compare(password, users[k].password)
    ensures r.Some? ==> exists k :: k in users && users[k].username == username && r.value == Strip(users[k])
  {
    CheckPassword(GetUserByUsername(users, username), hasher, password)
  }

  /** The second half of `validateCredentials`: the found row, stripped, when `password` matches its digest. */
  function CheckPassword(found: Option<UserRow>, hasher: PasswordHasher, password: string): (r: Option<PublicUser>)
    ensures r.Some? <==> found.Some? && hasher.compare(password, found.value.password)
    ensures r.Some? ==> r.value == Strip(found.value)
  {
    match found
    case None => None
    case Some(user) =>
      if hasher.compare(password, user.password) then Some(Strip(user)) else None
  }

  /**
   * With a sound bcrypt, a user whose stored digest was made from
   * `password` validates with that password and with no other.
   */
  lemma ValidateStoredPassword(
    users: map<int, UserRow>, hasher: PasswordHasher, k: int, password: string, guess: string, salt: int)
    requires UsernamesUnique(users) && HasherSound(hasher)
    requires k in users && users[k].password == hasher.hash(password, SaltRounds, salt)
    ensures ValidateCredentials(users, hasher, users[k].username, password) == Some(Strip(users[k]))
    ensures guess != password ==> ValidateCredentials(users, hasher, users[k].username, guess) == None
  {
    assert GetUserByUsername(users, users[k].username) == Some(users[k]);
  }

  /** `createDefaultUser`: with no users at all, insert admin/admin as an administrator. */
  method CreateDefaultUser(db: Database, hasher: PasswordHasher, salt: int, now: int)
    requires db.Valid()
    modifies db`users, db`nextUserId
    ensures db.Valid()
    ensures old(db.users) != map[] ==> db.users == old(db.users) && db.nextUserId == old(db.nextUserId)
    ensures old(db.users) == map[] ==>
      && db.users == map[old(db.nextUserId) := UserRow(old(db.nextUserId), "admin", hasher.hash("admin", SaltRounds, salt), 1, now, now)]
      && db.nextUserId == old(db.nextUserId) + 1
    ensures db.users != map[]
  {
    if |db.users| == 0 {
      var id := db.nextUserId;
      db.users := map[id := UserRow(id, "admin", hasher.hash("admin", SaltRounds, salt), 1, now, now)];
      db.nextUserId := id + 1;
    }
  }

  /**
   * `createUser`: store the bcrypt digest (never the password) and the
   * admin flag as 0 or 1, then read the row back by name. A taken name is
   * the UNIQUE violation the caller sees as an exception.
   */
  method CreateUser(db: Database, username: string, password: string, isAdmin: bool, hasher: PasswordHasher, salt: int, now: int)
    returns (r: Result<Option<UserRow>, DbError>)
    requires db.Valid()
    modifies db`users, db`nextUserId
    ensures db.Valid()
    ensures UsernameTaken(old(db.users), username) ==>
      r == Err(UniqueViolation) && db.users == old(db.users) && db.nextUserId == old(db.nextUserId)
    ensures !UsernameTaken(old(db.users), username) ==>
      var row := UserRow(old(db.nextUserId), username, hasher.hash(password, SaltRounds, salt), if isAdmin then 1 else 0, now, now);
      && r == Ok(Some(row))
      && db.users == old(db.users)[row.id := row]
      && db.nextUserId == old(db.nextUserId) + 1
  {
    if exists k :: k in db.users && db.users[k].username == username {
      r := Err(UniqueViolation);
      return;
    }
    var id := db.nextUserId;
    var row := UserRow(id, username, hasher.hash(password, SaltRounds, salt), if isAdmin then 1 else 0, now, now);
    db.users := db.users[id := row];
    db.nextUserId := id + 1;
    assert forall k :: k in db.users && db.users[k].username == username ==> k == id;
    var found := GetUserByUsername(db.users, username);
    assert UsernameTaken(db.users, username) by {
      assert db.users[id].username == username;
    }
    var k :| k in db.users && db.users[k] == found.value;
    assert found == Some(row);
    r := Ok(found);
  }

  // The credential functions hand the query helpers a plain object of named
  // values, while the helpers spread what they are given into the statement's
  // argument list. The members above model the named binding the code
  // evidently intends; the ones below model how arguments reach a statement,
  // and the calls as written.

  /** A value bound to a statement parameter. */
  datatype SqlValue = Text(text: string) | Integer(number: int)

  /** One argument of `statement.get(...)` or `statement.run(...)`: a plain value, or an object of named values. */
  datatype Argument = Value(value: SqlValue) | Object(fields: map<string, SqlValue>)

  /** What a query helper is handed as `params`: an array of arguments, or a plain object. */
  datatype Params = Array(items: seq<Argument>) | Plain(fields: map<string, SqlValue>)

  /** What is thrown before a statement runs. */
  datatype Thrown =
    | NotIterable  // spreading a non-iterable value into a call (a `TypeError`, with no SQLite `code`)
    | BindFailure  // the arguments do not fill the statement's named placeholders

  /** `statement.get(...params)` / `statement.run(...params)`: only an array spreads into arguments. */
  function Spread(params: Params): (r: Result<seq<Argument>, Thrown>)
    ensures r.Ok? <==> params.Array?
    ensures r.Ok? ==> r.value == params.items
  {
    match params
    case Array(items) => Ok(items)
    case Plain(_) => Err(NotIterable)
  }

  /**
   * Binding the arguments of a statement whose placeholders are all named:
   * they must be one object that has every name, and its fields are the
   * bound values.
   */
  function BindNamed(args: seq<Argument>, names: set<string>): (r: Result<map<string, SqlValue>, Thrown>)
    ensures r.Ok? <==> |args| == 1 && args[0].Object? && names <= args[0].fields.Keys
    ensures r.Ok? ==> names <= r.value.Keys && r.value == args[0].fields
  {
    if |args| == 1 && args[0].Object? && names <= args[0].fields.Keys then Ok(args[0].fields) else Err(BindFailure)
  }

  /** A query helper handed `params` for a statement with the placeholders `names`: spread, then bind. */
  function Bind(params: Params, names: set<string>): (r: Result<map<string, SqlValue>, Thrown>)
    ensures params.Plain? ==> r == Err(NotIterable)
    ensures r.Ok? <==> params.Array? && |params.items| == 1 && params.items[0].Object? && names <= params.items[0].fields.Keys
    ensures r.Ok? ==> names <= r.value.Keys && r.value == params.items[0].fields
  {
    match Spread(params)
    case Err(e) => Err(e)
    case Ok(args) => BindNamed(args, names)
  }

  /** The placeholders of the statements in `getUserByUsername`, `getUserById` and the user INSERT. */
  const ByNamePlaceholders: set<string> := {"username"}
  const ByIdPlaceholders: set<string> := {"id"}
  const InsertPlaceholders: set<string> := {"username", "password", "is_admin"}

  /** `getUserByUsername` handing the helper `params`: the row named by the bound `:username`. */
  function GetUserByUsernameWith(params: Params, users: map<int, UserRow>): (r: Result<Option<UserRow>, Thrown>)
    requires UsernamesUnique(users)
    ensures r.Err? <==> Bind(params, ByNamePlaceholders).Err?
    ensures r.Ok? ==> var v := Bind(params, ByNamePlaceholders).value["username"];
      && (r.value.Some? <==> v.Text? && UsernameTaken(users, v.text))
      && (r.value.Some? ==> r.value.value.username == v.text && exists k :: k in users && users[k] == r.value.value)
  {
    match Bind(params, ByNamePlaceholders)
    case Err(e) => Err(e)
    case Ok(bound) =>
      var v := bound["username"];
      if v.Text? then Ok(GetUserByUsername(users, v.text)) else Ok(None)
  }

  /** `getUserById` handing the helper `params`: the row at the bound `:id`, without its password. */
  function GetUserByIdWith(params: Params, users: map<int, UserRow>): (r: Result<Option<PublicUser>, Thrown>)
    ensures r.Err? <==> Bind(params, ByIdPlaceholders).Err?
    ensures r.Ok? ==> var v := Bind(params, ByIdPlaceholders).value["id"];
      && (r.value.Some? <==> v.Integer? && v.number in users)
      && (r.value.Some? ==> r.value.value == Strip(users[v.number]))
  {
    match Bind(params, ByIdPlaceholders)
    case Err(e) => Err(e)
    case Ok(bound) =>
      var v := bound["id"];
      if v.Integer? then Ok(GetUserById(users, v.number)) else Ok(None)
  }

  /** `validateCredentials`, whose lookup by name hands the helper `params`. */
  function ValidateCredentialsWith(params: Params, users: map<int, UserRow>, hasher: PasswordHasher, password: string)
    : (r: Result<Option<PublicUser>, Thrown>)
    requires UsernamesUnique(users)
    ensures r.Err? <==> Bind(params, ByNamePlaceholders).Err?
    ensures r.Ok? ==> var v := Bind(params, ByNamePlaceholders).value["username"];
      && (r.value.Some? <==> v.Text? && exists k :: k in users && users[k].username == v.text && hasher.compare(password, users[k].password))
      && (r.value.Some? ==> exists k :: k in users && users[k].username == v.text && r.value.value == Strip(users[k]))
  {
    match GetUserByUsernameWith(params, users)
    case Err(e) => Err(e)
    case Ok(found) => Ok(CheckPassword(found, hasher, password))
  }

  /** The objects the code builds for each statement (users.ts, lines 31-35, 49, 58 and 70-74). */
  function ByName(username: string): map<string, SqlValue> { map["username" := Text(username)] }
  function ById(id: int): map<string, SqlValue> { map["id" := Integer(id)] }
  function NewUser(username: string, digest: string, isAdmin: int): map<string, SqlValue>
  {
    map["username" := Text(username), "password" := Text(digest), "is_admin" := Integer(isAdmin)]
  }

  /**
   * As written, the object itself is handed to the helpers, so every
   * credential lookup and every user insert throws before reaching the
   * database, whatever the table and the arguments hold.
   */
  lemma CredentialCallsAsWrittenThrow(
    users: map<int, UserRow>, hasher: PasswordHasher, username: string, password: string, id: int, digest: string, isAdmin: int)
    requires UsernamesUnique(users)
    ensures GetUserByUsernameWith(Plain(ByName(username)), users) == Err(NotIterable)
    ensures GetUserByIdWith(Plain(ById(id)), users) == Err(NotIterable)
    ensures ValidateCredentialsWith(Plain(ByName(username)), users, hasher, password) == Err(NotIterable)
    ensures Bind(Plain(NewUser(username, digest, isAdmin)), InsertPlaceholders) == Err(NotIterable)
  {
  }

  /**
   * When the object reaches the statement whole, as its one argument, its
   * fields fill the named placeholders and the calls answer from the table
   * exactly as `GetUserByUsername`, `GetUserById` and `ValidateCredentials`
   * do; the INSERT binds all three columns.
   */
  lemma CredentialCallsBoundReachTable(
    users: map<int, UserRow>, hasher: PasswordHasher, username: string, password: string, id: int, digest: string, isAdmin: int)
    requires UsernamesUnique(users)
    ensures GetUserByUsernameWith(Array([Object(ByName(username))]), users) == Ok(GetUserByUsername(users, username))
    ensures GetUserByIdWith(Array([Object(ById(id))]), users) == Ok(GetUserById(users, id))
    ensures ValidateCredentialsWith(Array([Object(ByName(username))]), users, hasher, password)
      == Ok(ValidateCredentials(users, hasher, username, password))
    ensures Bind(Array([Object(NewUser(username, digest, isAdmin))]), InsertPlaceholders) == Ok(NewUser(username, digest, isAdmin))
  {
  }

  /** An array of plain values does not fill named placeholders either: only the object does. */
  lemma PositionalValuesDoNotBind(users: map<int, UserRow>, values: seq<SqlValue>)
    requires UsernamesUnique(users)
    ensures GetUserByUsernameWith(Array(seq(|values|, i requires 0 <= i < |values| => Value(values[i]))), users) == Err(BindFailure)
    ensures GetUserByUsernameWith(Array([]), users) == Err(BindFailure)
  {
  }
}
