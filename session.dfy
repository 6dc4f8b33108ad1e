/**
 * Session tokens and the authentication cookie of controllers/authController.js
 * (`generateToken`, `setTokenCookie`), with the signing library modelled by its
 * observable behaviour: a token it signed verifies to its claims until expiry,
 * and nothing else verifies.
 */
module Session {
  import opened Wrappers
  import opened Base

  datatype Role = Regular | Admin

  function RoleName(r: Role): string {
    match r
    case Regular => "user"
    case Admin => "admin"
  }

  /** `['user', 'admin'].includes(role)`. */
  function ParseRole(s: string): (r: Option<Role>)
    ensures r.Some? <==> s == "user" || s == "admin"
    ensures r.Some? ==> RoleName(r.value) == s
  {
    if s == "user" then Some(Regular) else if s == "admin" then Some(Admin) else None
  }

  /** `expiresIn: '7d'`, in seconds. */
  const TokenLifetime: nat := 7 * 24 * 60 * 60

  /** The cookie's `maxAge`: 7 days in milliseconds. */
  const CookieMaxAge: nat := 7 * 24 * 60 * 60 * 1000

  const CookieName := "authToken"

  /** The signed payload `{ userId, role }`. */
  datatype Claims = Claims(userId: Id, role: Role)

  /**
   * A cookie value: either a token this server signed (with its issue and expiry
   * times in whole seconds), or anything else (malformed text, a bad signature, a
   * token signed with another secret), which never verifies.
   */
  datatype Token = Signed(claims: Claims, issuedAt: nat, expiresAt: nat) | Unverifiable(raw: string)

  /** `jwt.sign({ userId, role }, secret, { expiresIn: '7d' })` at clock reading `now`. */
  function GenerateToken(userId: Id, role: Role, now: Millis): (t: Token)
    ensures t.Signed? && t.claims == Claims(userId, role)
    ensures t.issuedAt == now / 1000 && t.expiresAt == t.issuedAt + TokenLifetime
  {
    var iat := now / 1000;
    Signed(Claims(userId, role), iat, iat + TokenLifetime)
  }

  /** `jwt.verify(token, secret)`: the claims of a token this server signed that has not expired. */
  function Verify(t: Token, now: Millis): (r: Option<Claims>)
    ensures r.Some? <==> t.Signed? && now / 1000 < t.expiresAt
    ensures r.Some? ==> r.value == t.claims
  {
    if t.Signed? && now / 1000 < t.expiresAt then Some(t.claims) else None
  }

  /** Verifying a generated token gives back exactly its user and role for seven days, and nothing after. */
  lemma VerifyGenerated(userId: Id, role: Role, issued: Millis, now: Millis)
    ensures now / 1000 < issued / 1000 + TokenLifetime ==>
              Verify(GenerateToken(userId, role, issued), now) == Some(Claims(userId, role))
    ensures now / 1000 >= issued / 1000 + TokenLifetime ==>
              Verify(GenerateToken(userId, role, issued), now).None?
  {
  }

  /**
   * The token expires no later than the cookie that carries it: whenever a
   * generated token still verifies, the cookie's `maxAge` has not run out.
   */
  lemma {:induction false} TokenExpiresWithinCookie(userId: Id, role: Role, issued: Millis, now: Millis)
    requires Verify(GenerateToken(userId, role, issued), now).Some?
    ensures now < issued + CookieMaxAge
  {
    var iat := issued / 1000;
    assert now / 1000 < iat + TokenLifetime;
    assert now / 1000 <= iat + TokenLifetime - 1;
    assert now < (now / 1000 + 1) * 1000;
    assert (now / 1000 + 1) * 1000 <= (iat + TokenLifetime) * 1000;
    assert iat * 1000 <= issued;
  }

  /** The options `setTokenCookie` passes to `res.cookie`. */
  datatype CookieOptions = CookieOptions(httpOnly: bool, secure: bool, sameSite: string, maxAge: nat)

  /** `setTokenCookie`: script-inaccessible, secure in production only, same-site strict, seven days. */
  function TokenCookie(production: bool): (o: CookieOptions)
    ensures o.httpOnly && o.secure == production && o.sameSite == "strict"
    ensures o.maxAge == TokenLifetime * 1000
  {
    CookieOptions(true, production, "strict", CookieMaxAge)
  }
}
