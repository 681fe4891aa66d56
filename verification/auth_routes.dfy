/** `POST /api/auth/login` and `POST /api/auth/register`. */
module AuthRoutes {
  import opened Wrappers
  import opened Schema
  import opened Crypto
  import opened Store
  import opened Http
  import opened Credentials
  import opened Middleware

  const MissingFields: Response := Response(400, Error("Username and password are required"))
  const InvalidCredentials: Response := Response(401, Error("Invalid username or password"))

  /** The 200 answer to a login or registration: the three public fields and a token carrying the same three. */
  function SessionFor(tokens: TokenService, who: Identity, now: int): (resp: Response)
    ensures resp.status == 200 && resp.body.Session? && resp.body.identity == who
  {
    Response(200, Session(who, tokens.sign(who, now)))
  }

  /**
   * The token in a session verifies, for seven days, to exactly the
   * identity shown beside it in the body, and to nothing afterwards.
   */
  lemma SessionTokenMatchesBody(tokens: TokenService, who: Identity, now: int, later: int)
    requires TokensSound(tokens)
    ensures var body := SessionFor(tokens, who, now).body;
      tokens.verify(body.token, later) ==
        if later < now + TokenLifetime
        then Some(Decoded(body.identity.id, body.identity.username, body.identity.isAdmin, now, now + TokenLifetime))
        else None
  {
  }

  /**
   * `/login`: 400 on a falsy field, before any lookup; 401 when the
   * credentials do not validate; otherwise a session for that user.
   */
  function Login(users: map<int, UserRow>, hasher: PasswordHasher, tokens: TokenService,
                 username: Option<string>, password: Option<string>, now: int): (resp: Response)
    requires UsernamesUnique(users)
    ensures Falsy(username) || Falsy(password) ==> resp == MissingFields
    ensures !Falsy(username) && !Falsy(password) ==>
      (resp == InvalidCredentials <==> ValidateCredentials(users, hasher, username.value, password.value).None?)
    ensures !Falsy(username) && !Falsy(password) && ValidateCredentials(users, hasher, username.value, password.value).Some? ==>
      var user := ValidateCredentials(users, hasher, username.value, password.value).value;
      resp == SessionFor(tokens, Identity(user.id, user.username, user.isAdmin), now)
    ensures resp.status == 200 ==>
      && !Falsy(username) && !Falsy(password)
      && exists k :: k in users && users[k].username == username.value && hasher.compare(password.value, users[k].password)
           && resp == SessionFor(tokens, Identity(users[k].id, users[k].username, users[k].isAdmin), now)
    ensures resp == MissingFields || resp == InvalidCredentials || resp.status == 200
  {
    if Falsy(username) || Falsy(password) then MissingFields
    else
      match ValidateCredentials(users, hasher, username.value, password.value)
      case None => InvalidCredentials
      case Some(user) => SessionFor(tokens, Identity(user.id, user.username, user.isAdmin), now)
  }

  /** Logging in with the password a user's digest was made from opens a session for that user. */
  lemma LoginWithStoredPassword(
    users: map<int, UserRow>, hasher: PasswordHasher, tokens: TokenService, k: int, password: string, salt: int, now: int)
    requires UsernamesUnique(users) && HasherSound(hasher)
    requires k in users && users[k].username != "" && password != ""
    requires users[k].password == hasher.hash(password, SaltRounds, salt)
    ensures Login(users, hasher, tokens, Some(users[k].username), Some(password), now)
      == SessionFor(tokens, Identity(users[k].id, users[k].username, users[k].isAdmin), now)
  {
    ValidateStoredPassword(users, hasher, k, password, password, salt);
  }

  /**
   * The token a login hands out, sent back as `Bearer <token>`, passes
   * `authenticate` with the login's user until it expires.
   */
  lemma LoginTokenAuthenticates(
    users: map<int, UserRow>, hasher: PasswordHasher, tokens: TokenService,
    username: Option<string>, password: Option<string>, now: int, later: int)
    requires UsernamesUnique(users) && TokensSound(tokens)
    requires Login(users, hasher, tokens, username, password, now).status == 200
    requires later < now + TokenLifetime
    ensures
      var resp := Login(users, hasher, tokens, username, password, now);
      Authenticate(Some("Bearer " + resp.body.token), tokens, later) == Next(resp.body.identity)
  {
    var resp := Login(users, hasher, tokens, username, password, now);
    AuthenticateSignedToken("Bearer", tokens, resp.body.identity, now, later);
    assert "Bearer" + " " + resp.body.token == "Bearer " + resp.body.token;
  }

  /**
   * `/register`: 400 on a falsy field; otherwise create a non-admin user,
   * answering 409 for a taken name, 500 for any other failure, and a
   * session (without the digest `createUser` returned) on success.
   */
  method Register(db: Database, hasher: PasswordHasher, tokens: TokenService,
                  username: Option<string>, password: Option<string>, salt: int, now: int)
    returns (resp: Response)
    requires db.Valid()
    modifies db`users, db`nextUserId
    ensures db.Valid()
    ensures Falsy(username) || Falsy(password) ==>
      resp == MissingFields && db.users == old(db.users) && db.nextUserId == old(db.nextUserId)
    ensures !Falsy(username) && !Falsy(password) && UsernameTaken(old(db.users), username.value) ==>
      resp == Response(409, Error("Username already taken")) && db.users == old(db.users) && db.nextUserId == old(db.nextUserId)
    ensures !Falsy(username) && !Falsy(password) && !UsernameTaken(old(db.users), username.value) ==>
      var id := old(db.nextUserId);
      && db.users == old(db.users)[id := UserRow(id, username.value, hasher.hash(password.value, SaltRounds, salt), 0, now, now)]
      && db.nextUserId == id + 1
      && resp == SessionFor(tokens, Identity(id, username.value, 0), now)
  {
    if Falsy(username) || Falsy(password) {
      return MissingFields;
    }
    var created := CreateUser(db, username.value, password.value, false, hasher, salt, now);
    match created
    case Err(e) =>
      resp := if e == UniqueViolation then Response(409, Error("Username already taken")) else Response(500, Error("Server error"));
    case Ok(None) =>
      resp := Response(500, Error("Failed to create user"));
    case Ok(Some(user)) =>
      resp := SessionFor(tokens, Identity(user.id, user.username, user.isAdmin), now);
  }
}
