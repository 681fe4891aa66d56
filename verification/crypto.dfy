/**
 * bcrypt and JSON Web Tokens, which the server calls but does not
 * implement. Each is a pair of functions together with the one property
 * the server relies on.
 */
module Crypto {
  import opened Wrappers

  /** The work factor the server passes to bcrypt. */
  const SaltRounds: nat := 10

  /** `hash(password, rounds, salt)` and `compare(password, digest)`. */
  datatype PasswordHasher = PasswordHasher(hash: (string, nat, int) -> string, compare: (string, string) -> bool)

  /** A password matches a digest exactly when the digest was made from it, whatever the salt. */
  ghost predicate HasherSound(h: PasswordHasher)
  {
    forall p, q, rounds, salt :: h.compare(p, h.hash(q, rounds, salt)) <==> p == q
  }

  /** The claims a token carries, and what the server attaches to a request as its user. */
  datatype Identity = Identity(id: int, username: string, isAdmin: int)

  /** A verified token's payload: the claims plus issue and expiry times (seconds). */
  datatype Decoded = Decoded(id: int, username: string, isAdmin: int, iat: int, exp: int)

  /** `expiresIn: '7d'`. */
  const TokenLifetime: int := 7 * 24 * 60 * 60

  /**
   * `sign(claims, now)` and `verify(token, now)`, both closed over the
   * process-wide secret.
   */
  datatype TokenService = TokenService(sign: (Identity, int) -> string, verify: (string, int) -> Option<Decoded>)

  /**
   * A signed token verifies until its expiry, with the claims it was
   * signed with, and is a non-empty string without spaces (three
   * base64url parts).
   */
  ghost predicate TokensSound(ts: TokenService)
  {
    && (forall c, t, now :: ts.verify(ts.sign(c, t), now) ==
          if now < t + TokenLifetime then Some(Decoded(c.id, c.username, c.isAdmin, t, t + TokenLifetime)) else None)
    && (forall c, t :: ts.sign(c, t) != [] && ' ' !in ts.sign(c, t))
  }
}
