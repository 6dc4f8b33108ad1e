/**
 * controllers/authController.js: registration, login, logout, the current-user
 * query and the profile update. Rendering and content negotiation are folded
 * into one outcome per case.
 */
module AuthController {
  import opened Wrappers
  import opened Base
  import opened Session
  import opened Store

  /** The body of `POST /auth/register`; a missing field is `None`. */
  datatype RegisterForm = RegisterForm(
    username: Option<string>,
    email: Option<string>,
    password: Option<string>,
    firstName: Option<string>,
    lastName: Option<string>,
    bio: Option<string>,
    role: Option<string>)

  datatype RegisterResult =
    | InvalidAccountType
      /** The admin cap is reached; the form comes back with the role set to `user`. */
    | AdminLimitReached(formData: RegisterForm)
    | AlreadyExists
      /** `user.save()` rejected the record. */
    | RegistrationFailed
    | Registered(userId: Id, token: Token, cookie: CookieOptions, redirect: string)

  /** `User.findOne({ $or: [{ email }, { username }] })` finds someone; an absent field matches nobody. */
  predicate Taken(users: map<Id, User>, email: Option<string>, username: Option<string>)
    ensures email.None? && username.None? ==> !Taken(users, email, username)
    ensures email.Some? && username.Some? && !Taken(users, email, username) ==>
              forall j :: j in users ==> users[j].email != email.value && users[j].username != username.value
  {
    exists id :: id in users &&
      ((email.Some? && users[id].email == email.value) || (username.Some? && users[id].username == username.value))
  }

  /**
   * `new User({...})` for a validated role: `bio || ''`, no articles, the password
   * digested. models/User.js is not part of this model; its username, e-mail and
   * password are taken to be required, so a record lacking one is `None`.
   */
  function NewUser(id: Id, form: RegisterForm, role: Role): (r: Option<User>)
    ensures r.Some? <==> form.username.Some? && form.email.Some? && form.password.Some?
    ensures r.Some? ==> r.value.id == id && r.value.role == role && r.value.articles == []
    ensures r.Some? ==> r.value.username == form.username.value && r.value.email == form.email.value
    ensures r.Some? ==> r.value.password == HashPassword(form.password.value)
    ensures r.Some? ==> r.value.firstName == form.firstName && r.value.lastName == form.lastName
    ensures r.Some? ==> r.value.bio == OrElse(form.bio, "")
  {
    if form.username.None? || form.email.None? || form.password.None? then None
    else Some(User(id, form.username.value, form.email.value, HashPassword(form.password.value),
                   form.firstName, form.lastName, OrElse(form.bio, ""), role, []))
  }

  /** Where a signed-in user lands by default. */
  function HomeFor(role: Role): string {
    if role == Admin then "/articles/my" else "/articles"
  }

  /**
   * `register`, as a decision on the users before the call; `accepts` stands for
   * the User schema's validators and `id` for the identifier the insert assigns.
   * The checks run in the source's order: account type, admin cap, duplicates,
   * then the save.
   */
  function RegisterOutcome(users: map<Id, User>, id: Id, form: RegisterForm, accepts: User -> bool,
                           production: bool, now: Millis): (r: RegisterResult)
    ensures r == InvalidAccountType <==> !Truthy(form.role) || ParseRole(form.role.value).None?
    ensures r.AdminLimitReached? <==>
              Truthy(form.role) && form.role.value == "admin" && AdminCount(users) >= MaxAdmins
    ensures r.AdminLimitReached? ==> r.formData == form.(role := Some("user"))
    ensures r == AlreadyExists <==>
              && Truthy(form.role) && ParseRole(form.role.value).Some?
              && (form.role.value == "admin" ==> AdminCount(users) < MaxAdmins)
              && Taken(users, form.email, form.username)
    ensures r == RegistrationFailed <==>
              && Truthy(form.role) && ParseRole(form.role.value).Some?
              && (form.role.value == "admin" ==> AdminCount(users) < MaxAdmins)
              && !Taken(users, form.email, form.username)
              && (NewUser(id, form, ParseRole(form.role.value).value).None? ||
                  !accepts(NewUser(id, form, ParseRole(form.role.value).value).value))
    ensures r.Registered? <==>
              && Truthy(form.role) && ParseRole(form.role.value).Some?
              && (form.role.value == "admin" ==> AdminCount(users) < MaxAdmins)
              && !Taken(users, form.email, form.username)
              && NewUser(id, form, ParseRole(form.role.value).value).Some?
              && accepts(NewUser(id, form, ParseRole(form.role.value).value).value)
    ensures r.Registered? ==>
              var role := ParseRole(form.role.value).value;
              && r.userId == id
              && r.token == GenerateToken(id, role, now) && Verify(r.token, now) == Some(Claims(id, role))
              && r.cookie == TokenCookie(production)
              && r.redirect == HomeFor(role)
  {
    if !Truthy(form.role) || ParseRole(form.role.value).None? then InvalidAccountType
    else
      var role := ParseRole(form.role.value).value;
      if role == Admin && AdminCount(users) >= MaxAdmins then AdminLimitReached(form.(role := Some("user")))
      else if Taken(users, form.email, form.username) then AlreadyExists
      else
        match NewUser(id, form, role)
        case None => RegistrationFailed
        case Some(u) =>
          if !accepts(u) then RegistrationFailed
          else Registered(id, GenerateToken(id, role, now), TokenCookie(production), HomeFor(role))
  }

  /** A successful registration never takes the administrators past the cap. */
  lemma {:induction false} RegisterKeepsAdminCap(users: map<Id, User>, id: Id, form: RegisterForm,
                                                 accepts: User -> bool, production: bool, now: Millis)
    requires AdminCount(users) <= MaxAdmins && id !in users
    requires RegisterOutcome(users, id, form, accepts, production, now).Registered?
    ensures AdminCount(users[id := NewUser(id, form, ParseRole(form.role.value).value).value]) <= MaxAdmins
  {
    var u := NewUser(id, form, ParseRole(form.role.value).value).value;
    AdminCountInsert(users, id, u);
  }

  /** `register` against the database: a successful registration inserts the new user and nothing else changes. */
  method Register(db: Database, form: RegisterForm, accepts: User -> bool, production: bool, now: Millis)
    returns (r: RegisterResult)
    requires db.Valid()
    modifies db
    ensures db.Valid()
    ensures r == RegisterOutcome(old(db.users), old(db.nextId), form, accepts, production, now)
    ensures r.Registered? ==>
              && db.users == old(db.users)[r.userId := NewUser(r.userId, form, ParseRole(form.role.value).value).value]
              && db.nextId == old(db.nextId) + 1
    ensures !r.Registered? ==> db.users == old(db.users) && db.nextId == old(db.nextId)
    ensures db.articles == old(db.articles) && db.comments == old(db.comments)
  {
    r := RegisterOutcome(db.users, db.nextId, form, accepts, production, now);
    if r.Registered? {
      var id := db.nextId;
      var u := NewUser(id, form, ParseRole(form.role.value).value).value;
      assert id !in db.users;
      RegisterKeepsAdminCap(db.users, id, form, accepts, production, now);
      assert forall j :: j in db.users ==> db.users[j].email != u.email && db.users[j].username != u.username;
      db.InsertUser(u);
    }
  }

  /** The body of `POST /auth/login`. */
  datatype LoginForm = LoginForm(email: Option<string>, password: Option<string>, expectedRole: Option<string>)

  datatype LoginResult =
    | InvalidCredentials
    | RoleMismatch(actual: Role, expected: string)
    | LoggedIn(userId: Id, token: Token, cookie: CookieOptions, redirect: string)

  /** The account `findOne({ email })` returns; an absent address matches nobody. */
  function FindByEmail(db: Database, email: Option<string>): (r: Option<Id>)
    reads db
    ensures r.Some? ==> email.Some? && r.value in db.users && db.users[r.value].email == email.value
    ensures email.Some? && r.None? ==> forall id :: id in db.users && id < db.nextId ==> db.users[id].email != email.value
  {
    if email.None? then None else FirstWithEmail(db.users, email.value, db.nextId)
  }

  /**
   * `login`. An unknown address and a wrong password give the same answer. A
   * given `expectedRole` must be the account's role. `?redirect` wins over the
   * role's default landing page.
   */
  function Login(db: Database, form: LoginForm, redirectQuery: Option<string>, production: bool, now: Millis)
    : (r: LoginResult)
    reads db
    requires db.Valid()
    ensures r != InvalidCredentials <==>
              exists id :: id in db.users && form.email == Some(db.users[id].email) &&
                           ComparePassword(db.users[id].password, form.password)
    ensures r.LoggedIn? <==>
              exists id :: id in db.users && form.email == Some(db.users[id].email) &&
                           ComparePassword(db.users[id].password, form.password) &&
                           (!Truthy(form.expectedRole) || form.expectedRole.value == RoleName(db.users[id].role))
    ensures r.RoleMismatch? ==>
              && Truthy(form.expectedRole) && r.expected == form.expectedRole.value
              && r.expected != RoleName(r.actual)
              && exists id :: id in db.users && form.email == Some(db.users[id].email) && r.actual == db.users[id].role
    ensures r.LoggedIn? ==>
              && r.userId in db.users
              && var u := db.users[r.userId];
              && form.email == Some(u.email) && ComparePassword(u.password, form.password)
              && (!Truthy(form.expectedRole) || form.expectedRole.value == RoleName(u.role))
              && r.token == GenerateToken(u.id, u.role, now)
              && r.cookie == TokenCookie(production)
              && r.redirect == (if Truthy(redirectQuery) then redirectQuery.value else HomeFor(u.role))
  {
    match FindByEmail(db, form.email)
    case None =>
      assert forall id :: id in db.users ==> id < db.nextId;
      InvalidCredentials
    case Some(id) =>
      var u := db.users[id];
      assert forall j :: j in db.users && form.email == Some(db.users[j].email) ==> j == id;
      if !ComparePassword(u.password, form.password) then InvalidCredentials
      else if Truthy(form.expectedRole) && form.expectedRole.value != RoleName(u.role) then
        RoleMismatch(u.role, form.expectedRole.value)
      else
        var redirect := if Truthy(redirectQuery) then redirectQuery.value else HomeFor(u.role);
        LoggedIn(id, GenerateToken(u.id, u.role, now), TokenCookie(production), redirect)
  }

  /** A successful login's cookie signs the requester in, with the stored role, on later requests. */
  lemma LoginTokenVerifies(db: Database, form: LoginForm, redirectQuery: Option<string>, production: bool,
                           now: Millis, later: Millis)
    requires db.Valid()
    requires Login(db, form, redirectQuery, production, now).LoggedIn?
    requires later / 1000 < now / 1000 + TokenLifetime
    ensures var r := Login(db, form, redirectQuery, production, now);
            Verify(r.token, later) == Some(Claims(r.userId, db.users[r.userId].role))
  {
  }

  /**
   * Registration and login round-trip: the account `register` stores signs in
   * with the password it was registered with, as that account.
   */
  lemma RegisteredLogsIn(db: Database, id: Id, form: RegisterForm, role: Role, redirectQuery: Option<string>,
                         production: bool, now: Millis)
    requires db.Valid() && id in db.users
    requires NewUser(id, form, role).Some? && db.users[id] == NewUser(id, form, role).value
    ensures var r := Login(db, LoginForm(form.email, form.password, None), redirectQuery, production, now);
            r.LoggedIn? && r.userId == id && r.token == GenerateToken(id, role, now)
  {
    var f := LoginForm(form.email, form.password, None);
    var r := Login(db, f, redirectQuery, production, now);
    PasswordMatchesIff(form.password.value, form.password);
    assert form.email == Some(db.users[id].email) && ComparePassword(db.users[id].password, f.password);
    assert r.LoggedIn?;
    assert db.users[r.userId].email == db.users[id].email;
  }

  /** `logout`: the cookie is cleared and the login page follows. */
  datatype LogoutResult = LoggedOut(clearCookie: bool, redirect: string)

  function Logout(): LogoutResult {
    LoggedOut(true, "/auth/login")
  }

  datatype CurrentUserResult = NotAuthenticated | CurrentUser(user: Option<PublicProfile>)

  /** `getCurrentUser`: 401 when anonymous, else the stored record without its password. */
  function GetCurrentUser(db: Database, requester: Option<User>): (r: CurrentUserResult)
    reads db
    ensures r.NotAuthenticated? <==> requester.None?
    ensures requester.Some? && requester.value.id in db.users ==> r == CurrentUser(Some(Public(db.users[requester.value.id])))
    ensures requester.Some? && requester.value.id !in db.users ==> r == CurrentUser(None)
  {
    if requester.None? then NotAuthenticated
    else if requester.value.id in db.users then CurrentUser(Some(Public(db.users[requester.value.id])))
    else CurrentUser(None)
  }

  /** The body of `POST /auth/profile`. */
  datatype ProfileForm = ProfileForm(firstName: Option<string>, lastName: Option<string>, bio: Option<string>)

  /**
   * The update `{ firstName, lastName, bio }`: a field left out of the body is
   * dropped from the update, and no other path can change, so in particular no
   * user can change their own role, e-mail or password this way.
   */
  function ApplyProfile(u: User, form: ProfileForm): (r: User)
    ensures r == u.(firstName := r.firstName, lastName := r.lastName, bio := r.bio)
    ensures r.firstName == (if form.firstName.Some? then form.firstName else u.firstName)
    ensures r.lastName == (if form.lastName.Some? then form.lastName else u.lastName)
    ensures r.bio == form.bio.GetOr(u.bio)
  {
    u.(firstName := if form.firstName.Some? then form.firstName else u.firstName,
       lastName := if form.lastName.Some? then form.lastName else u.lastName,
       bio := form.bio.GetOr(u.bio))
  }

  datatype ProfileResult = ProfileUpdated | ProfileRejected

  /**
   * `updateProfile`; `accepts` stands for the validators `runValidators` runs.
   * A requester whose record is gone gets the redirect and nothing changes.
   */
  method UpdateProfile(db: Database, requester: User, form: ProfileForm, accepts: User -> bool)
    returns (r: ProfileResult)
    requires db.Valid()
    modifies db
    ensures db.Valid()
    ensures requester.id in old(db.users) && accepts(ApplyProfile(old(db.users)[requester.id], form)) ==>
              r == ProfileUpdated && db.users == old(db.users)[requester.id := ApplyProfile(old(db.users)[requester.id], form)]
    ensures requester.id in old(db.users) && !accepts(ApplyProfile(old(db.users)[requester.id], form)) ==>
              r == ProfileRejected && db.users == old(db.users)
    ensures requester.id !in old(db.users) ==> r == ProfileUpdated && db.users == old(db.users)
    ensures db.articles == old(db.articles) && db.comments == old(db.comments) && db.nextId == old(db.nextId)
  {
    if requester.id !in db.users {
      return ProfileUpdated;
    }
    var updated := ApplyProfile(db.users[requester.id], form);
    if !accepts(updated) {
      return ProfileRejected;
    }
    db.ReplaceUser(updated);
    r := ProfileUpdated;
  }
}
