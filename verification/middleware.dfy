/** The two request gates: `authenticate` and `requireAdmin`. */
module Middleware {
  import opened Wrappers
  import opened Crypto
  import opened Http

  /** A gate either answers the request itself or passes it on with the user attached. */
  datatype Gate = Halt(response: Response) | Next(user: Identity)

  const NoTokenProvided: Response := Response(401, Error("No token provided"))
  const InvalidToken: Response := Response(401, Error("Invalid token"))
  const AdminRightsRequired: Response := Response(403, Error("Admin rights required"))

  /** `s.split(sep)` for a one-character separator: the pieces between separators. */
  function Split(s: string, sep: char): (parts: seq<string>)
    ensures |parts| >= 1
    ensures forall i :: 0 <= i < |parts| ==> sep !in parts[i]
    decreases |s|
  {
    if s == [] then [[]]
    else
      var rest := Split(s[1..], sep);
      if s[0] == sep then [[]] + rest else [[s[0]] + rest[0]] + rest[1..]
  }

  /** `parts.join(sep)`, the inverse of Split. */
  function Join(parts: seq<string>, sep: char): string
    requires |parts| >= 1
  {
    if |parts| == 1 then parts[0] else parts[0] + [sep] + Join(parts[1..], sep)
  }

  lemma {:induction false} JoinSplit(s: string, sep: char)
    ensures Join(Split(s, sep), sep) == s
  {
    if s != [] {
      JoinSplit(s[1..], sep);
      var rest := Split(s[1..], sep);
      if s[0] == sep {
        assert Split(s, sep)[1..] == rest;
      } else {
        var parts := Split(s, sep);
        if |rest| == 1 {
          assert parts == [[s[0]] + rest[0]];
        } else {
          assert parts[1..] == rest[1..];
          assert Join(rest, sep) == rest[0] + [sep] + Join(rest[1..], sep);
        }
      }
    }
  }

  /** Splitting a separator-free word followed by more text: the word fuses with the first piece of the rest. */
  lemma {:induction false} SplitWordThen(w: string, r: string, sep: char)
    requires sep !in w
    ensures Split(w + r, sep) == [w + Split(r, sep)[0]] + Split(r, sep)[1..]
    decreases |w|
  {
    var tail := Split(r, sep);
    if w == [] {
      assert w + r == r && w + tail[0] == tail[0];
      assert [tail[0]] + tail[1..] == tail;
    } else {
      SplitWordThen(w[1..], r, sep);
      assert (w + r)[0] == w[0] && w[0] != sep;
      assert (w + r)[1..] == w[1..] + r;
      var rest := Split(w[1..] + r, sep);
      assert rest[0] == w[1..] + tail[0] && rest[1..] == tail[1..];
      assert [w[0]] + (w[1..] + tail[0]) == w + tail[0];
    }
  }

  lemma {:induction false} SplitJoin(parts: seq<string>, sep: char)
    requires |parts| >= 1
    requires forall i :: 0 <= i < |parts| ==> sep !in parts[i]
    ensures Split(Join(parts, sep), sep) == parts
  {
    if |parts| == 1 {
      SplitWordThen(parts[0], [], sep);
      assert parts[0] + [] == parts[0];
    } else {
      var tail := Join(parts[1..], sep);
      SplitJoin(parts[1..], sep);
      assert Split([sep] + tail, sep) == [[]] + parts[1..] by {
        assert ([sep] + tail)[1..] == tail;
      }
      SplitWordThen(parts[0], [sep] + tail, sep);
      var pieces := Split([sep] + tail, sep);
      assert pieces[0] == [] && pieces[1..] == parts[1..];
      assert parts[0] + pieces[0] == parts[0];
      assert Join(parts, sep) == parts[0] + ([sep] + tail);
      assert parts == [parts[0]] + parts[1..];
    }
  }

  /** `authHeader.split(' ')[1]`: the second space-separated field, if there is one. */
  function ExtractToken(header: string): (token: Option<string>)
    ensures token.Some? <==> |Split(header, ' ')| > 1
    ensures token.Some? ==> token.value == Split(header, ' ')[1] && ' ' !in token.value
  {
    var parts := Split(header, ' ');
    if |parts| > 1 then Some(parts[1]) else None
  }

  /**
   * A header made of space-free fields joined by single spaces yields its
   * second field as the token, whatever follows it.
   */
  lemma {:induction false} ExtractTokenSecondField(fields: seq<string>)
    requires |fields| >= 2
    requires forall i :: 0 <= i < |fields| ==> ' ' !in fields[i]
    ensures ExtractToken(Join(fields, ' ')) == Some(fields[1])
  {
    SplitJoin(fields, ' ');
  }

  /**
   * `authenticate`: no header, or no second field, is "No token provided";
   * a token that fails verification is "Invalid token"; otherwise the
   * request goes on carrying exactly the id, username and isAdmin of the
   * payload.
   */
  function Authenticate(authorization: Option<string>, tokens: TokenService, now: int): (g: Gate)
    ensures Falsy(authorization) ==> g == Halt(NoTokenProvided)
    ensures !Falsy(authorization) && (ExtractToken(authorization.value).None? || ExtractToken(authorization.value).value == "") ==>
      g == Halt(NoTokenProvided)
    ensures !Falsy(authorization) && ExtractToken(authorization.value).Some? && ExtractToken(authorization.value).value != ""
            && tokens.verify(ExtractToken(authorization.value).value, now).None? ==>
      g == Halt(InvalidToken)
    ensures g.Halt? ==> g.response == NoTokenProvided || g.response == InvalidToken
    ensures g.Next? <==>
      && !Falsy(authorization)
      && ExtractToken(authorization.value).Some? && ExtractToken(authorization.value).value != ""
      && tokens.verify(ExtractToken(authorization.value).value, now).Some?
    ensures g.Next? ==>
      && !Falsy(authorization) && ExtractToken(authorization.value).Some?
      && tokens.verify(ExtractToken(authorization.value).value, now).Some?
      && var d := tokens.verify(ExtractToken(authorization.value).value, now).value;
         g.user == Identity(d.id, d.username, d.isAdmin)
  {
    if Falsy(authorization) then Halt(NoTokenProvided)
    else
      match ExtractToken(authorization.value)
      case None => Halt(NoTokenProvided)
      case Some(token) =>
        if token == "" then Halt(NoTokenProvided)
        else
          match tokens.verify(token, now)
          case None => Halt(InvalidToken)
          case Some(decoded) => Next(Identity(decoded.id, decoded.username, decoded.isAdmin))
  }

  /**
   * A header made of any space-free first word (the scheme is not checked
   * to be "Bearer"), one space and a token signed at `issued` lets the
   * request through before expiry, with the signed claims as its user, and
   * is "Invalid token" from expiry on.
   */
  lemma {:induction false} AuthenticateSignedToken(scheme: string, tokens: TokenService, claims: Identity, issued: int, now: int)
    requires TokensSound(tokens)
    requires ' ' !in scheme
    ensures Authenticate(Some(scheme + " " + tokens.sign(claims, issued)), tokens, now) ==
      if now < issued + TokenLifetime then Next(claims) else Halt(InvalidToken)
  {
    var token := tokens.sign(claims, issued);
    SplitJoin([scheme, token], ' ');
    assert Join([scheme, token], ' ') == scheme + " " + token by {
      assert Join([scheme, token][1..], ' ') == token;
    }
  }

  /** A header without a space carries no token. */
  lemma {:induction false} HeaderWithoutSpace(header: string, tokens: TokenService, now: int)
    requires header != "" && ' ' !in header
    ensures Authenticate(Some(header), tokens, now) == Halt(NoTokenProvided)
  {
    SplitJoin([header], ' ');
  }

  /**
   * `requireAdmin`: no user is 401, a user whose isAdmin is falsy is 403,
   * an administrator goes on.
   */
  function RequireAdmin(user: Option<Identity>): (g: Gate)
    ensures user.None? ==> g == Halt(AuthenticationRequired)
    ensures user.Some? && user.value.isAdmin == 0 ==> g == Halt(AdminRightsRequired)
    ensures user.Some? && user.value.isAdmin != 0 ==> g == Next(user.value)
  {
    if user.None? then Halt(AuthenticationRequired)
    else if user.value.isAdmin == 0 then Halt(AdminRightsRequired)
    else Next(user.value)
  }
}
