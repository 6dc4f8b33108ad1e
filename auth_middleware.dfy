/**
 * middleware/auth.js: resolving the requester from the session cookie, the
 * view locals, and the guards that stop a request before its handler.
 */
module AuthMiddleware {
  import opened Wrappers
  import opened Base
  import opened Session
  import opened Store

  /** A cookie counts as sent unless it is absent or empty (`!token`). */
  predicate Present(cookie: Option<Token>)
    ensures cookie.Some? && cookie.value.Signed? ==> Present(cookie)
    ensures !Present(cookie) ==> cookie.None? || cookie.value.Unverifiable?
  {
    cookie.Some? && cookie.value != Unverifiable("")
  }

  /** What `authenticateToken` decides: the requester, and whether it clears the cookie. */
  datatype Resolution = Resolution(user: Option<User>, clearCookie: bool)

  /**
   * `authenticateToken`: no cookie leaves the request anonymous; a cookie that does
   * not verify, or whose user no longer exists, is cleared and leaves it anonymous;
   * otherwise the requester is the STORED user record, so its role is the stored
   * role and not the one in the token.
   */
  function ResolveToken(users: map<Id, User>, cookie: Option<Token>, now: Millis): (r: Resolution)
    ensures !Present(cookie) ==> r == Resolution(None, false)
    ensures Present(cookie) && Verify(cookie.value, now).None? ==> r == Resolution(None, true)
    ensures r.user.Some? <==>
              Present(cookie) && Verify(cookie.value, now).Some? && Verify(cookie.value, now).value.userId in users
    ensures r.user.Some? ==> r.user.value == users[Verify(cookie.value, now).value.userId] && !r.clearCookie
    ensures r.user.None? && Present(cookie) ==> r.clearCookie
  {
    if !Present(cookie) then Resolution(None, false)
    else
      match Verify(cookie.value, now)
      case None => Resolution(None, true)
      case Some(claims) =>
        if claims.userId in users then Resolution(Some(users[claims.userId]), false)
        else Resolution(None, true)
  }

  /**
   * A cookie set at login or registration resolves, for seven days, to the stored
   * record of its user, whatever role the token carries.
   */
  lemma ResolveGenerated(users: map<Id, User>, userId: Id, role: Role, issued: Millis, now: Millis)
    requires userId in users
    requires now / 1000 < issued / 1000 + TokenLifetime
    ensures ResolveToken(users, Some(GenerateToken(userId, role, issued)), now) == Resolution(Some(users[userId]), false)
  {
    VerifyGenerated(userId, role, issued, now);
  }

  /** A request and its response as the middleware sees them. */
  class Exchange {
    /** `req.cookies.authToken`. */
    const cookie: Option<Token>
    /** `req.user`. */
    var user: Option<User>
    /** Whether `res.clearCookie('authToken')` has been called. */
    var cookieCleared: bool
    /** `res.locals.user`, `res.locals.isAuthenticated`, `res.locals.isAdmin`. */
    var localsUser: Option<User>
    var isAuthenticated: bool
    var isAdmin: bool

    constructor (cookie: Option<Token>)
      ensures this.cookie == cookie && user.None? && !cookieCleared
      ensures localsUser.None? && !isAuthenticated && !isAdmin
    {
      this.cookie := cookie;
      user := None;
      cookieCleared := false;
      localsUser := None;
      isAuthenticated := false;
      isAdmin := false;
    }

    /**
     * `authenticateToken`. It depends only on the cookie and the users, so the
     * second run that app.js and each router together cause changes nothing more.
     */
    method AuthenticateToken(users: map<Id, User>, now: Millis)
      modifies this
      ensures user == ResolveToken(users, cookie, now).user
      ensures cookieCleared == (old(cookieCleared) || ResolveToken(users, cookie, now).clearCookie)
      ensures localsUser == old(localsUser) && isAuthenticated == old(isAuthenticated) && isAdmin == old(isAdmin)
    {
      if !Present(cookie) {
        user := None;
        return;
      }
      var verified := Verify(cookie.value, now);
      if verified.None? {
        cookieCleared := true;
        user := None;
      } else if verified.value.userId !in users {
        cookieCleared := true;
        user := None;
      } else {
        user := Some(users[verified.value.userId]);
      }
    }

    /** `checkAuth`: copies the requester into the view locals. */
    method CheckAuth()
      modifies this
      ensures localsUser == user && isAuthenticated == user.Some?
      ensures isAdmin == (user.Some? && user.value.role == Admin)
      ensures user == old(user) && cookieCleared == old(cookieCleared)
    {
      localsUser := user;
      isAuthenticated := user.Some?;
      isAdmin := user.Some? && user.value.role == Admin;
    }
  }

  /**
   * How a guard ends: on to the next handler, a login demand (a redirect to
   * `/auth/login?redirect=<originalUrl>` for a page, 401 otherwise), 403, or a redirect.
   */
  datatype Outcome = Next | LoginRequired(returnTo: string) | Forbidden | Redirect(location: string)

  /** `requireAuth`. */
  function RequireAuth(user: Option<User>, originalUrl: string): (r: Outcome)
    ensures r == Next <==> user.Some?
    ensures user.None? ==> r == LoginRequired(originalUrl)
  {
    if user.None? then LoginRequired(originalUrl) else Next
  }

  /** `requireRole(roles)`: an empty list admits any signed-in user. */
  function RequireRole(roles: seq<Role>, user: Option<User>, originalUrl: string): (r: Outcome)
    ensures user.None? ==> r == LoginRequired(originalUrl)
    ensures user.Some? ==> (r == Next <==> |roles| == 0 || user.value.role in roles)
    ensures user.Some? && r != Next ==> r == Forbidden
  {
    if user.None? then LoginRequired(originalUrl)
    else if |roles| > 0 && user.value.role !in roles then Forbidden
    else Next
  }

  /** `requireAdmin`: only a signed-in administrator passes; anyone else signed in gets 403. */
  function RequireAdmin(user: Option<User>, originalUrl: string): (r: Outcome)
    ensures r == Next <==> user.Some? && user.value.role == Admin
    ensures user.None? ==> r == LoginRequired(originalUrl)
    ensures user.Some? && user.value.role != Admin ==> r == Forbidden
  {
    RequireRole([Admin], user, originalUrl)
  }

  /** `redirectIfAuthenticated`: a signed-in user goes to `?redirect` or to the article list. */
  function RedirectIfAuthenticated(user: Option<User>, redirectQuery: Option<string>): (r: Outcome)
    ensures r == Next <==> user.None?
    ensures user.Some? && Truthy(redirectQuery) ==> r == Redirect(redirectQuery.value)
    ensures user.Some? && !Truthy(redirectQuery) ==> r == Redirect("/articles")
  {
    if user.Some? then Redirect(OrElse(redirectQuery, "/articles")) else Next
  }
}
