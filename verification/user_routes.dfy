/** `GET /api/users/me` and the admin-only `GET /api/users`. */
module UserRoutes {
  import opened Wrappers
  import opened Schema
  import opened Crypto
  import opened Http
  import opened Credentials
  import opened Middleware

  /** The `/me` handler, after `authenticate`: the caller's row without its password. */
  function Me(users: map<int, UserRow>, user: Option<Identity>): (resp: Response)
    ensures CallerId(user).None? ==> resp == Response(401, Error("Not authenticated"))
    ensures CallerId(user).Some? && CallerId(user).value !in users ==> resp == Response(404, Error("User not found"))
    ensures resp.status == 200 <==> CallerId(user).Some? && CallerId(user).value in users
    ensures resp.status == 200 ==> resp.body == UserJson(Strip(users[user.value.id]))
  {
    match CallerId(user)
    case None => Response(401, Error("Not authenticated"))
    case Some(id) =>
      match GetUserById(users, id)
      case None => Response(404, Error("User not found"))
      case Some(found) => Response(200, UserJson(found))
  }

  /** `GET /me`: `authenticate`, then the handler. */
  function GetMe(users: map<int, UserRow>, authorization: Option<string>, tokens: TokenService, now: int): (resp: Response)
    ensures var g := Authenticate(authorization, tokens, now); g.Halt? ==> resp == g.response && resp.status == 401
    ensures var g := Authenticate(authorization, tokens, now);
      g.Next? && g.user.id == 0 ==> resp == Response(401, Error("Not authenticated"))
    ensures var g := Authenticate(authorization, tokens, now);
      g.Next? && g.user.id != 0 && g.user.id in users ==> resp == Response(200, UserJson(Strip(users[g.user.id])))
    ensures var g := Authenticate(authorization, tokens, now);
      g.Next? && g.user.id != 0 && g.user.id !in users ==> resp == Response(404, Error("User not found"))
  {
    match Authenticate(authorization, tokens, now)
    case Halt(r) => r
    case Next(u) => Me(users, Some(u))
  }

  /** `GET /`: `authenticate`, then `requireAdmin`, then an empty list. */
  function ListUsers(authorization: Option<string>, tokens: TokenService, now: int): (resp: Response)
    ensures resp.status == 200 <==>
      var g := Authenticate(authorization, tokens, now);
      g.Next? && g.user.isAdmin != 0
    ensures resp.status == 200 ==> resp.body == UserList([])
    ensures var g := Authenticate(authorization, tokens, now); g.Halt? ==> resp == g.response && resp.status == 401
    ensures var g := Authenticate(authorization, tokens, now); g.Next? && g.user.isAdmin == 0 ==> resp == AdminRightsRequired
    ensures resp.status == 401 || resp.status == 403 || resp.status == 200
  {
    match Authenticate(authorization, tokens, now)
    case Halt(r) => r
    case Next(u) =>
      match RequireAdmin(Some(u))
      case Halt(r) => r
      case Next(_) => Response(200, UserList([]))
  }

  /**
   * With a token signed for `claims`: before expiry a non-admin gets 403
   * and an admin the empty list; after expiry, 401.
   */
  lemma ListUsersWithSignedToken(tokens: TokenService, claims: Identity, issued: int, now: int)
    requires TokensSound(tokens)
    ensures ListUsers(Some("Bearer " + tokens.sign(claims, issued)), tokens, now) ==
      if now >= issued + TokenLifetime then InvalidToken
      else if claims.isAdmin == 0 then AdminRightsRequired
      else Response(200, UserList([]))
  {
    AuthenticateSignedToken("Bearer", tokens, claims, issued, now);
    assert "Bearer" + " " + tokens.sign(claims, issued) == "Bearer " + tokens.sign(claims, issued);
  }
}
