/**
 * routes/users.js: the users router's table, the administrator dashboard's
 * statistics and the user-detail page.
 */
module UserRoutes {
  import opened Wrappers
  import opened Base
  import opened Session
  import opened ArticleModel
  import opened Store
  import opened AuthMiddleware
  import opened Routing
  import opened Query

  datatype UserHandler =
    | ProfileRedirect  // redirect to /auth/profile
    | Dashboard        // the admin dashboard
    | UserDetail       // one user's page

  /** The table in declaration order, below the `/users` mount point. */
  const UserTable: seq<Route<UserHandler>> := [
    Route(Get, [Lit("profile")], [SignedIn], ProfileRedirect),
    Route(Get, [Lit("admin")], [AdminOnly], Dashboard),
    Route(Get, [Param], [SignedIn], UserDetail)
  ]

  function UserRoute(verb: Verb, path: seq<string>): Option<Route<UserHandler>> {
    match Dispatch(UserTable, verb, path)
    case None => None
    case Some(i) => Some(UserTable[i])
  }

  /** The literal `profile` and `admin` segments win over `:id`; only GETs with one segment are served. */
  function IntendedUserHandler(verb: Verb, path: seq<string>): Option<UserHandler> {
    if verb != Get || |path| != 1 || path[0] == "" then None
    else if path[0] == "profile" then Some(ProfileRedirect)
    else if path[0] == "admin" then Some(Dashboard)
    else Some(UserDetail)
  }

  lemma {:induction false} UserDispatch(verb: Verb, path: seq<string>)
    ensures var r := UserRoute(verb, path);
            (r.None? <==> IntendedUserHandler(verb, path).None?) &&
            (r.Some? ==> Some(r.value.handler) == IntendedUserHandler(verb, path))
  {
    var t := UserTable;
    if |path| == 1 {
      assert PathMatches(t[0].pattern, path) <==> path[0] == "profile";
      assert PathMatches(t[1].pattern, path) <==> path[0] == "admin";
      assert PathMatches(t[2].pattern, path) <==> path[0] != "";
    }
  }

  /** Every route of the router needs a signed-in user, and the dashboard an administrator. */
  lemma UserGuards(verb: Verb, path: seq<string>, user: Option<User>, originalUrl: string, redirectQuery: Option<string>)
    requires UserRoute(verb, path).Some?
    ensures var r := UserRoute(verb, path).value;
            var outcome := RunGuards(r.guards, user, originalUrl, redirectQuery);
            && (r.handler == Dashboard ==> outcome == RequireAdmin(user, originalUrl))
            && (r.handler != Dashboard ==> outcome == RequireAuth(user, originalUrl))
  {
    var r := UserRoute(verb, path).value;
    assert |r.guards| == 1;
    assert Entered(r.guards, 0, user, originalUrl, redirectQuery);
  }

  /** `/users/profile` only forwards to the authentication router's profile page. */
  const ProfileLocation := "/auth/profile"

  /** The dashboard's `stats` object. */
  datatype Stats = Stats(totalUsers: nat, totalArticles: nat, publishedArticles: nat, draftArticles: nat)

  /** The identifiers of the articles in one status (`countDocuments({ status })` counts them). */
  function IdsWithStatus(articles: map<Id, Article>, s: Status): (r: set<Id>)
    ensures forall id :: id in r <==> id in articles && articles[id].status == s
    ensures r <= articles.Keys
  {
    set id | id in articles && articles[id].status == s
  }

  function DashboardStats(users: map<Id, User>, articles: map<Id, Article>): (r: Stats)
    ensures r.totalUsers == |users| && r.totalArticles == |articles|
    ensures r.publishedArticles == |IdsWithStatus(articles, Published)|
    ensures r.draftArticles == |IdsWithStatus(articles, Draft)|
  {
    Stats(|users|, |articles|, |IdsWithStatus(articles, Published)|, |IdsWithStatus(articles, Draft)|)
  }

  /**
   * Every article has exactly one of the three statuses, so the published and
   * draft counts add up to the total less the archived articles.
   */
  lemma {:induction false} StatsAddUp(users: map<Id, User>, articles: map<Id, Article>)
    ensures var st := DashboardStats(users, articles);
            st.publishedArticles + st.draftArticles + |IdsWithStatus(articles, Archived)| == st.totalArticles
    ensures var st := DashboardStats(users, articles);
            st.publishedArticles + st.draftArticles <= st.totalArticles
  {
    var p := IdsWithStatus(articles, Published);
    var d := IdsWithStatus(articles, Draft);
    var x := IdsWithStatus(articles, Archived);
    StatusPartition(articles);
    DisjointUnionSize(p, d);
    DisjointUnionSize(p + d, x);
  }

  /** The three status classes are disjoint and together cover every article. */
  lemma StatusPartition(articles: map<Id, Article>)
    ensures var p, d, x := IdsWithStatus(articles, Published), IdsWithStatus(articles, Draft),
                           IdsWithStatus(articles, Archived);
            p * d == {} && (p + d) * x == {} && p + d + x == articles.Keys
  {
    var p, d, x := IdsWithStatus(articles, Published), IdsWithStatus(articles, Draft),
                   IdsWithStatus(articles, Archived);
    assert p + d + x == articles.Keys;
  }

  lemma DisjointUnionSize(a: set<Id>, b: set<Id>)
    requires a * b == {}
    ensures |a + b| == |a| + |b|
  {
  }

  /** The dashboard's article list: all articles, newest created first. */
  function DashboardArticles(db: Database): (r: seq<Article>)
    reads db
    requires ArticlesKeyed(db.articles, db.nextId)
    ensures SortedBy(ByCreated, r)
    ensures |r| == |db.articles|
    ensures forall k :: 0 <= k < |r| ==> r[k].id in db.articles && db.articles[r[k].id] == r[k]
    ensures forall id :: id in db.articles ==> db.articles[id] in r
  {
    var tm := (_, _) => true;
    SortedFind(ByCreated, db.articles, Filter(None, None, None, None), tm, db.nextId);
    assert MatchingIds(db.articles, Filter(None, None, None, None), tm, db.nextId) == db.articles.Keys;
    SortArticles(ByCreated, Collect(db.articles, Filter(None, None, None, None), tm, db.nextId))
  }

  /** How many of a user's articles their page shows. */
  const DetailLimit := 10

  datatype DetailResult =
    | UserNotFound
    | DetailForbidden
    | Detail(profileUser: PublicProfile, userArticles: seq<Article>, isOwnProfile: bool)

  /** The filter of the user page's list: published articles by the one user. */
  function PublishedBy(id: Id): Filter {
    Filter(Some("published"), None, Some(id), None)
  }

  /** The text match of a filter without `$text`: never consulted. */
  predicate NoText(search: string, a: Article) {
    true
  }

  /** `Article.find({ author: id, status: 'published' }).sort({ publishedAt: -1 }).limit(10)`. */
  function LatestPublished(m: map<Id, Article>, id: Id, n: nat): (r: seq<Article>)
    requires forall aid :: aid in m ==> m[aid].id == aid
    ensures |r| <= DetailLimit
  {
    Window(SortArticles(ByPublished, Collect(m, PublishedBy(id), NoText, n)), 0, DetailLimit)
  }

  /**
   * The list holds the user's published articles as stored, at most ten,
   * newest publication first, and no article left out is newer than one shown.
   */
  lemma LatestPublishedMeaning(m: map<Id, Article>, id: Id, n: nat)
    requires forall aid :: aid in m ==> aid < n && m[aid].id == aid
    ensures var r := LatestPublished(m, id, n);
            && |r| == Min(DetailLimit, |MatchingIds(m, PublishedBy(id), NoText, n)|)
            && SortedBy(ByPublished, r)
            && (forall k :: 0 <= k < |r| ==> r[k].id in m && m[r[k].id] == r[k] && r[k].author == id && r[k].status == Published)
            && (forall aid :: aid in m && m[aid].author == id && m[aid].status == Published && m[aid] !in r ==>
                  forall k :: 0 <= k < |r| ==> Before(ByPublished, r[k], m[aid]))
  {
    var sorted := SortArticles(ByPublished, Collect(m, PublishedBy(id), NoText, n));
    SortedFind(ByPublished, m, PublishedBy(id), NoText, n);
    TopOfSorted(ByPublished, sorted, DetailLimit);
    var r := LatestPublished(m, id, n);
    forall k | 0 <= k < |r|
      ensures r[k].id in m && m[r[k].id] == r[k] && r[k].author == id && r[k].status == Published
    {
      assert r[k] == sorted[k];
      PublishedByMeaning(id, r[k]);
    }
    forall aid | aid in m && m[aid].author == id && m[aid].status == Published && m[aid] !in r
      ensures forall k :: 0 <= k < |r| ==> Before(ByPublished, r[k], m[aid])
    {
      PublishedByMeaning(id, m[aid]);
      assert m[aid] in sorted;
    }
  }

  /** The user page's filter selects exactly the user's published articles. */
  lemma PublishedByMeaning(id: Id, a: Article)
    ensures Matches(PublishedBy(id), NoText, a) <==> a.author == id && a.status == Published
  {
  }

  /**
   * The user-detail handler: 404 for an unknown user before the permission
   * check; then only the user themself or an administrator may look; then the
   * user's ten most recently published articles.
   */
  function UserDetailPage(db: Database, requester: User, id: Id): (r: DetailResult)
    reads db
    requires ArticlesKeyed(db.articles, db.nextId)
    ensures id !in db.users ==> r == UserNotFound
    ensures id in db.users && requester.id != id && requester.role != Admin ==> r == DetailForbidden
    ensures id in db.users && (requester.id == id || requester.role == Admin) ==>
              r == Detail(Public(db.users[id]), LatestPublished(db.articles, id, db.nextId), requester.id == id)
  {
    if id !in db.users then UserNotFound
    else if requester.id != id && requester.role != Admin then DetailForbidden
    else Detail(Public(db.users[id]), LatestPublished(db.articles, id, db.nextId), requester.id == id)
  }

  /**
   * The first `n` of a sorted sequence are sorted, and whatever was cut off
   * comes after every one of them.
   */
  lemma TopOfSorted(o: Order, s: seq<Article>, n: nat)
    requires SortedBy(o, s) && n != 0
    ensures var top := Window(s, 0, n);
            && SortedBy(o, top)
            && (forall k :: 0 <= k < |top| ==> top[k] in s)
            && (forall x :: x in s && x !in top ==> forall k :: 0 <= k < |top| ==> Before(o, top[k], x))
  {
    var top := Window(s, 0, n);
    WindowSorted(o, s, 0, n);
    forall x | x in s && x !in top
      ensures forall k :: 0 <= k < |top| ==> Before(o, top[k], x)
    {
      var j :| 0 <= j < |s| && s[j] == x;
      assert j >= |top|;
      forall k | 0 <= k < |top|
        ensures Before(o, top[k], x)
      {
        assert top[k] == s[k];
      }
    }
  }
}
