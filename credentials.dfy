/** The two cryptographic collaborators of the server, modelled ideally:
    signed session tokens (jsonwebtoken with a one-hour lifetime) and
    salted password hashes (bcrypt).  A token verifies only under the key
    that signed it and only before its expiry second; a hash matches only
    the password it was made from. */
module Credentials {
  import opened Wrappers

  type Key = string

  /** What a token carries: the identity and the admin bit at issue time. */
  datatype Claims = Claims(username: string, isAdmin: bool)

  /** A token is either one this model signed, or any other string. */
  datatype Token =
    | Signed(claims: Claims, issuedAt: int, expiresAt: int, key: Key)
    | Malformed(text: string)

  /** `expiresIn: '1h'`, in seconds. */
  const TokenLifetime: int := 3600

  /** jsonwebtoken counts whole seconds: floor(now / 1000). */
  function Seconds(nowMs: int): int {
    nowMs / 1000
  }

  /** `jwt.sign(claims, key, { expiresIn: '1h' })` at time `nowMs`. */
  function Sign(claims: Claims, key: Key, nowMs: int): (t: Token)
    ensures t.Signed? && t.claims == claims && t.key == key
    ensures t.expiresAt - t.issuedAt == TokenLifetime
  {
    Signed(claims, Seconds(nowMs), Seconds(nowMs) + TokenLifetime, key)
  }

  /** `jwt.verify(token, key)` at time `nowMs`: a wrong signature or an
      expiry second already reached are both reported as no claims. */
  function Verify(t: Token, key: Key, nowMs: int): Option<Claims> {
    match t
    case Signed(c, _, exp, k) =>
      if k == key && Seconds(nowMs) < exp then Some(c) else None
    case Malformed(_) => None
  }

  /** A freshly signed token gives back exactly its claims for one hour
      and nothing afterwards. */
  lemma SignVerifyRoundTrip(c: Claims, key: Key, issuedMs: int, nowMs: int)
    ensures Verify(Sign(c, key, issuedMs), key, nowMs)
         == if Seconds(nowMs) < Seconds(issuedMs) + TokenLifetime then Some(c) else None
  {
  }

  /** A token signed with another key never verifies. */
  lemma ForeignKeyRejected(c: Claims, key: Key, other: Key, issuedMs: int, nowMs: int)
    requires other != key
    ensures Verify(Sign(c, other, issuedMs), key, nowMs) == None
  {
  }

  /** A bcrypt hash: its salt and, ideally, the password it was made from. */
  datatype PasswordHash = Bcrypt(salt: nat, secret: string)

  function HashPassword(password: string, salt: nat): (h: PasswordHash)
    ensures h.salt == salt
  {
    Bcrypt(salt, password)
  }

  /** `bcrypt.compare(password, hash)`. */
  function ComparePassword(password: string, h: PasswordHash): bool {
    h.secret == password
  }

  /** A hash matches the password it was made from and no other. */
  lemma HashMatchesOnlyItsPassword(password: string, attempt: string, salt: nat)
    ensures ComparePassword(attempt, HashPassword(password, salt)) <==> attempt == password
  {
  }
}
