/**
 * routes/auth.js: the authentication router's table, its guards, the
 * register-form defaults and the profile page.
 */
module AuthRoutes {
  import opened Wrappers
  import opened Base
  import opened Session
  import opened Store
  import opened AuthMiddleware
  import opened Routing
  import opened AuthController

  datatype AuthHandler =
    | LoginPage       // the inline login form
    | LoginSubmit     // login
    | RegisterPage    // the inline register form
    | RegisterSubmit  // register
    | LogoutHandler   // logout, on either verb
    | ProfileView     // the inline profile page
    | ProfileSubmit   // updateProfile
    | CurrentUserApi  // getCurrentUser

  /** The table in declaration order, below the `/auth` mount point. */
  const AuthTable: seq<Route<AuthHandler>> := [
    Route(Get, [Lit("login")], [Anonymous], LoginPage),
    Route(Post, [Lit("login")], [Anonymous], LoginSubmit),
    Route(Get, [Lit("register")], [Anonymous], RegisterPage),
    Route(Post, [Lit("register")], [Anonymous], RegisterSubmit),
    Route(Post, [Lit("logout")], [], LogoutHandler),
    Route(Get, [Lit("logout")], [], LogoutHandler),
    Route(Get, [Lit("profile")], [SignedIn], ProfileView),
    Route(Post, [Lit("profile")], [SignedIn], ProfileSubmit),
    Route(Get, [Lit("api"), Lit("user")], [SignedIn], CurrentUserApi)
  ]

  function AuthRoute(verb: Verb, path: seq<string>): Option<Route<AuthHandler>> {
    match Dispatch(AuthTable, verb, path)
    case None => None
    case Some(i) => Some(AuthTable[i])
  }

  /** Where each request goes, per path: every route is a fixed path, so there is no precedence to resolve. */
  function IntendedAuthHandler(verb: Verb, path: seq<string>): Option<AuthHandler> {
    if path == ["login"] then Some(if verb == Get then LoginPage else LoginSubmit)
    else if path == ["register"] then Some(if verb == Get then RegisterPage else RegisterSubmit)
    else if path == ["logout"] then Some(LogoutHandler)
    else if path == ["profile"] then Some(if verb == Get then ProfileView else ProfileSubmit)
    else if path == ["api", "user"] && verb == Get then Some(CurrentUserApi)
    else None
  }

  lemma {:induction false} AuthDispatch(verb: Verb, path: seq<string>)
    ensures var r := AuthRoute(verb, path);
            (r.None? <==> IntendedAuthHandler(verb, path).None?) &&
            (r.Some? ==> Some(r.value.handler) == IntendedAuthHandler(verb, path))
  {
    if |path| == 1 {
      AuthDispatchOne(verb, path);
    } else {
      AuthDispatchOther(verb, path);
    }
  }

  /** One-segment paths: `login`, `register`, `logout` and `profile`, each on both verbs. */
  lemma {:induction false} AuthDispatchOne(verb: Verb, path: seq<string>)
    requires |path| == 1
    ensures var r := AuthRoute(verb, path);
            (r.None? <==> IntendedAuthHandler(verb, path).None?) &&
            (r.Some? ==> Some(r.value.handler) == IntendedAuthHandler(verb, path))
  {
    var t := AuthTable;
    assert path == ["login"] <==> path[0] == "login";
    assert path == ["register"] <==> path[0] == "register";
    assert path == ["logout"] <==> path[0] == "logout";
    assert path == ["profile"] <==> path[0] == "profile";
    if verb == Get {
      AuthDispatchGet(path);
    } else {
      AuthDispatchPost(path);
    }
  }

  lemma {:induction false} AuthDispatchGet(path: seq<string>)
    requires |path| == 1
    ensures var r := AuthRoute(Get, path);
            && (r.None? <==> path[0] !in {"login", "register", "logout", "profile"})
            && (r.Some? && path[0] == "login" ==> r.value.handler == LoginPage)
            && (r.Some? && path[0] == "register" ==> r.value.handler == RegisterPage)
            && (r.Some? && path[0] == "logout" ==> r.value.handler == LogoutHandler)
            && (r.Some? && path[0] == "profile" ==> r.value.handler == ProfileView)
  {
    var t := AuthTable;
    assert PathMatches(t[0].pattern, path) <==> path[0] == "login";
    assert PathMatches(t[2].pattern, path) <==> path[0] == "register";
    assert PathMatches(t[5].pattern, path) <==> path[0] == "logout";
    assert PathMatches(t[6].pattern, path) <==> path[0] == "profile";
  }

  lemma {:induction false} AuthDispatchPost(path: seq<string>)
    requires |path| == 1
    ensures var r := AuthRoute(Post, path);
            && (r.None? <==> path[0] !in {"login", "register", "logout", "profile"})
            && (r.Some? && path[0] == "login" ==> r.value.handler == LoginSubmit)
            && (r.Some? && path[0] == "register" ==> r.value.handler == RegisterSubmit)
            && (r.Some? && path[0] == "logout" ==> r.value.handler == LogoutHandler)
            && (r.Some? && path[0] == "profile" ==> r.value.handler == ProfileSubmit)
  {
    var t := AuthTable;
    assert PathMatches(t[1].pattern, path) <==> path[0] == "login";
    assert PathMatches(t[3].pattern, path) <==> path[0] == "register";
    assert PathMatches(t[4].pattern, path) <==> path[0] == "logout";
    assert PathMatches(t[7].pattern, path) <==> path[0] == "profile";
  }

  /** Of the other paths, only `api/user` is served, and only on GET. */
  lemma {:induction false} AuthDispatchOther(verb: Verb, path: seq<string>)
    requires |path| != 1
    ensures var r := AuthRoute(verb, path);
            (r.None? <==> IntendedAuthHandler(verb, path).None?) &&
            (r.Some? ==> Some(r.value.handler) == IntendedAuthHandler(verb, path))
  {
    var t := AuthTable;
    if |path| == 2 {
      assert PathMatches(t[8].pattern, path) <==> path == ["api", "user"];
    }
  }

  /**
   * The guard each route puts before its handler: the login and register
   * forms admit only anonymous requests, logout admits everyone, and the
   * profile and `/api/user` routes admit only signed-in users.
   */
  lemma AuthGuards(verb: Verb, path: seq<string>, user: Option<User>, originalUrl: string, redirectQuery: Option<string>)
    requires AuthRoute(verb, path).Some?
    ensures var r := AuthRoute(verb, path).value;
            var outcome := RunGuards(r.guards, user, originalUrl, redirectQuery);
            && (r.handler in {LoginPage, LoginSubmit, RegisterPage, RegisterSubmit} ==>
                  outcome == RedirectIfAuthenticated(user, redirectQuery))
            && (r.handler == LogoutHandler ==> outcome == Next)
            && (r.handler in {ProfileView, ProfileSubmit, CurrentUserApi} ==> outcome == RequireAuth(user, originalUrl))
  {
    var i := Dispatch(AuthTable, verb, path).value;
    AuthTableGuards(i);
    var r := AuthTable[i];
    if r.guards != [] {
      SingleGuard(r.guards[0], user, originalUrl, redirectQuery);
    }
  }

  /** The guards the table declares, route by route. */
  lemma AuthTableGuards(i: nat)
    requires i < |AuthTable|
    ensures var r := AuthTable[i];
            && (r.handler in {LoginPage, LoginSubmit, RegisterPage, RegisterSubmit} ==> r.guards == [Anonymous])
            && (r.handler == LogoutHandler ==> r.guards == [])
            && (r.handler in {ProfileView, ProfileSubmit, CurrentUserApi} ==> r.guards == [SignedIn])
  {
  }

  /** A signed-in user who asks for the login or register form is redirected, never served it. */
  lemma SignedInNeverSeesForms(verb: Verb, path: seq<string>, u: User, originalUrl: string, redirectQuery: Option<string>)
    requires AuthRoute(verb, path).Some?
    requires AuthRoute(verb, path).value.handler in {LoginPage, LoginSubmit, RegisterPage, RegisterSubmit}
    ensures RunGuards(AuthRoute(verb, path).value.guards, Some(u), originalUrl, redirectQuery) ==
              Redirect(OrElse(redirectQuery, "/articles"))
  {
    AuthGuards(verb, path, Some(u), originalUrl, redirectQuery);
  }

  /**
   * After logout the browser sends no cookie, so the next request is anonymous;
   * the redirect to `/auth/login` then reaches the login form, whose guard lets
   * the anonymous request through, while any page behind `requireAuth` asks for
   * a login again.
   */
  lemma LogoutSignsOut(users: map<Id, User>, cookie: Option<Session.Token>, now: Millis, originalUrl: string,
                       redirectQuery: Option<string>)
    ensures var next := if Logout().clearCookie then None else cookie;
            var who := ResolveToken(users, next, now).user;
            && who.None?
            && Logout().redirect == "/auth/login"
            && AuthRoute(Get, ["login"]).Some? && AuthRoute(Get, ["login"]).value.handler == LoginPage
            && RunGuards(AuthRoute(Get, ["login"]).value.guards, who, originalUrl, redirectQuery) == Next
            && RequireAuth(who, originalUrl) == LoginRequired(originalUrl)
  {
    AuthDispatch(Get, ["login"]);
    AuthGuards(Get, ["login"], None, originalUrl, redirectQuery);
  }

  /** The register form's `formData`: every field empty, the role included. */
  datatype RegisterFormData = RegisterFormData(firstName: string, lastName: string, username: string,
                                               email: string, bio: string, role: string)

  const RegisterDefaults := RegisterFormData("", "", "", "", "", "")

  /** The body the register form posts: its fields as shown, plus the password typed in. */
  function SubmittedRegistration(fd: RegisterFormData, password: Option<string>): (form: RegisterForm)
    ensures form.role == Some(fd.role) && form.password == password
    ensures form.username == Some(fd.username) && form.email == Some(fd.email)
    ensures form.firstName == Some(fd.firstName) && form.lastName == Some(fd.lastName) && form.bio == Some(fd.bio)
  {
    RegisterForm(Some(fd.username), Some(fd.email), password, Some(fd.firstName), Some(fd.lastName), Some(fd.bio),
                 Some(fd.role))
  }

  /** Posting the register form without choosing an account type is refused before any lookup. */
  lemma BlankRegistrationRejected(users: map<Id, User>, id: Id, password: Option<string>, accepts: User -> bool,
                                  production: bool, now: Millis)
    ensures RegisterOutcome(users, id, SubmittedRegistration(RegisterDefaults, password), accepts, production, now)
              == InvalidAccountType
  {
  }

  /** The profile page: the requester's stored record without its password (`null` if it vanished). */
  function ProfilePage(db: Database, requester: User): (r: Option<PublicProfile>)
    reads db
    ensures r.Some? <==> requester.id in db.users
    ensures r.Some? ==> r.value == Public(db.users[requester.id])
    ensures CurrentUser(r) == GetCurrentUser(db, Some(requester))
  {
    if requester.id in db.users then Some(Public(db.users[requester.id])) else None
  }

  /** A requester resolved from the session cookie always finds their own profile. */
  lemma ResolvedRequesterHasProfile(db: Database, cookie: Option<Session.Token>, now: Millis)
    requires db.Valid()
    requires ResolveToken(db.users, cookie, now).user.Some?
    ensures var u := ResolveToken(db.users, cookie, now).user.value;
            ProfilePage(db, u) == Some(Public(u))
  {
    var claims := Verify(cookie.value, now).value;
    assert UsersKeyed(db.users, db.nextId);
    assert db.users[claims.userId].id == claims.userId;
  }
}
