/**
 * routes/articles.js: the article router's table, the new-article and
 * edit-article form handlers, and what first-match dispatch makes of it.
 */
module ArticleRoutes {
  import opened Wrappers
  import opened Base
  import opened Text
  import opened Session
  import opened ArticleModel
  import opened Store
  import opened AuthMiddleware
  import opened Routing
  import opened ArticleController
  import ClientHelpers
  import AuthController

  /** The handler each route ends in. */
  datatype ArticleHandler =
    | ListAll        // getAllArticles
    | ListOwn        // getUserArticles
    | NewFormPage    // the inline new-article form
    | Create         // createArticle
    | EditFormPage   // the inline edit-article form
    | Update         // updateArticle
    | Remove         // deleteArticle
    | View           // getArticle

  /** The table in declaration order, below the `/articles` mount point. */
  const ArticleTable: seq<Route<ArticleHandler>> := [
    Route(Get, [], [], ListAll),
    Route(Get, [Lit("my")], [AdminOnly], ListOwn),
    Route(Get, [Lit("new")], [AdminOnly], NewFormPage),
    Route(Post, [Lit("new")], [AdminOnly, Upload], Create),
    Route(Get, [Param, Lit("edit")], [AdminOnly], EditFormPage),
    Route(Post, [Param, Lit("edit")], [AdminOnly, Upload], Update),
    Route(Post, [Param, Lit("delete")], [AdminOnly], Remove),
    Route(Get, [Param], [], View)
  ]

  /** The route a request reaches, if any. */
  function ArticleRoute(verb: Verb, path: seq<string>): Option<Route<ArticleHandler>> {
    match Dispatch(ArticleTable, verb, path)
    case None => None
    case Some(i) => Some(ArticleTable[i])
  }

  /**
   * Where each request goes, written per path shape: the literal `my` and
   * `new` segments win over `:id`, and anything else is a 404 (`None`).
   */
  function IntendedHandler(verb: Verb, path: seq<string>): Option<ArticleHandler> {
    if path == [] then
      if verb == Get then Some(ListAll) else None
    else if |path| == 1 then
      if verb == Get then
        if path[0] == "my" then Some(ListOwn)
        else if path[0] == "new" then Some(NewFormPage)
        else if path[0] != "" then Some(View)
        else None
      else if path[0] == "new" then Some(Create)
      else None
    else if |path| == 2 && path[0] != "" then
      if path[1] == "edit" then Some(if verb == Get then EditFormPage else Update)
      else if path[1] == "delete" && verb == Post then Some(Remove)
      else None
    else None
  }

  /**
   * The landing page a signed-in user is sent to by role, below the `/articles`
   * mount point: an administrator's own list, or the public list; either way a
   * route serves it and its guards let that user through.
   */
  lemma HomeReachable(u: User, redirectQuery: Option<string>)
    ensures var path := if u.role == Admin then ["my"] else [];
            && AuthController.HomeFor(u.role) == "/articles" + (if u.role == Admin then "/my" else "")
            && ArticleRoute(Get, path).Some?
            && ArticleRoute(Get, path).value.handler == (if u.role == Admin then ListOwn else ListAll)
            && RunGuards(ArticleRoute(Get, path).value.guards, Some(u), AuthController.HomeFor(u.role), redirectQuery) == Next
  {
    var path: seq<string> := if u.role == Admin then ["my"] else [];
    ArticleDispatch(Get, path);
    var r := ArticleRoute(Get, path).value;
    if u.role == Admin {
      assert r.guards == [AdminOnly];
      SingleGuard(AdminOnly, Some(u), AuthController.HomeFor(u.role), redirectQuery);
    } else {
      assert r.guards == [];
    }
  }

  /** Dispatch over the table sends every request where the path-shape description says. */
  lemma {:induction false} ArticleDispatch(verb: Verb, path: seq<string>)
    ensures var r := ArticleRoute(verb, path);
            (r.None? <==> IntendedHandler(verb, path).None?) &&
            (r.Some? ==> Some(r.value.handler) == IntendedHandler(verb, path))
  {
    if |path| == 1 {
      ArticleDispatchOne(verb, path);
    } else if |path| == 2 {
      ArticleDispatchTwo(verb, path);
    } else {
      ArticleDispatchOther(verb, path);
    }
  }

  /** One-segment paths: `/my`, `/new` and `/:id`, in that order. */
  lemma {:induction false} ArticleDispatchOne(verb: Verb, path: seq<string>)
    requires |path| == 1
    ensures var r := ArticleRoute(verb, path);
            (r.None? <==> IntendedHandler(verb, path).None?) &&
            (r.Some? ==> Some(r.value.handler) == IntendedHandler(verb, path))
  {
    var t := ArticleTable;
    assert PathMatches(t[1].pattern, path) <==> path[0] == "my";
    assert PathMatches(t[2].pattern, path) <==> path[0] == "new";
    assert PathMatches(t[7].pattern, path) <==> path[0] != "";
  }

  /** Two-segment paths: `/:id/edit` on either verb and `/:id/delete`. */
  lemma {:induction false} ArticleDispatchTwo(verb: Verb, path: seq<string>)
    requires |path| == 2
    ensures var r := ArticleRoute(verb, path);
            (r.None? <==> IntendedHandler(verb, path).None?) &&
            (r.Some? ==> Some(r.value.handler) == IntendedHandler(verb, path))
  {
    var t := ArticleTable;
    assert PathMatches(t[4].pattern, path) <==> path[0] != "" && path[1] == "edit";
    assert PathMatches(t[6].pattern, path) <==> path[0] != "" && path[1] == "delete";
  }

  /** The empty path is the list; longer paths match no route. */
  lemma {:induction false} ArticleDispatchOther(verb: Verb, path: seq<string>)
    requires |path| != 1 && |path| != 2
    ensures var r := ArticleRoute(verb, path);
            (r.None? <==> IntendedHandler(verb, path).None?) &&
            (r.Some? ==> Some(r.value.handler) == IntendedHandler(verb, path))
  {
  }

  /** `GET /articles/:x` reaches `getArticle` exactly when `x` is neither `my` nor `new`. */
  lemma ViewReachedIff(x: string)
    requires x != ""
    ensures ArticleRoute(Get, [x]).Some?
    ensures ArticleRoute(Get, [x]).value.handler == View <==> x != "my" && x != "new"
  {
    ArticleDispatch(Get, [x]);
  }

  /** Only the list and the single view have no guard; every other route starts with `requireAdmin`. */
  lemma ArticleGuards(verb: Verb, path: seq<string>)
    requires ArticleRoute(verb, path).Some?
    ensures var r := ArticleRoute(verb, path).value;
            (r.guards == [] <==> r.handler in {ListAll, View}) &&
            (r.guards != [] ==> r.guards[0] == AdminOnly)
  {
  }

  /**
   * A request from anyone but an administrator never reaches the upload
   * middleware or the handler of a guarded route.
   */
  lemma NonAdminNeverUploads(verb: Verb, path: seq<string>, user: Option<User>, originalUrl: string,
                             redirectQuery: Option<string>)
    requires ArticleRoute(verb, path).Some?
    requires user.None? || user.value.role != Admin
    ensures var r := ArticleRoute(verb, path).value;
            (forall k :: 0 <= k < |r.guards| && r.guards[k] == Upload ==>
               !Entered(r.guards, k, user, originalUrl, redirectQuery)) &&
            (r.handler !in {ListAll, View} ==> RunGuards(r.guards, user, originalUrl, redirectQuery) != Next)
  {
    var r := ArticleRoute(verb, path).value;
    ArticleGuards(verb, path);
    if r.guards != [] {
      AdminFirstStopsOthers(r.guards, user, originalUrl, redirectQuery, 1);
      forall k | 0 <= k < |r.guards| && r.guards[k] == Upload
        ensures !Entered(r.guards, k, user, originalUrl, redirectQuery)
      {
        AdminFirstStopsOthers(r.guards, user, originalUrl, redirectQuery, k);
      }
    }
  }

  /** The `formData` object the article form is rendered with. */
  datatype FormData = FormData(title: string, content: string, summary: string, category: string,
                               tags: string, status: string, featuredImage: string)

  /** The blank new-article form: every field empty, except status, which is `draft`. */
  const NewFormData := FormData("", "", "", "", "", "draft", "")

  /** What the browser posts back from a form: every text field, as shown (the image is a file input). */
  function Submitted(fd: FormData): (form: ArticleForm)
    ensures form == ArticleForm(Some(fd.title), Some(fd.content), Some(fd.summary), Some(fd.category),
                                Some(fd.tags), Some(fd.status))
  {
    ArticleForm(Some(fd.title), Some(fd.content), Some(fd.summary), Some(fd.category), Some(fd.tags), Some(fd.status))
  }

  /** Posting the new-article form untouched is refused for its missing title, and its status would be a draft. */
  lemma BlankNewFormRejected(id: Id, author: Id, upload: Option<string>, now: Millis)
    ensures CreatedArticle(id, author, Submitted(NewFormData), upload, now) == Invalid(TitleRequired)
    ensures ParseStatus(NewFormData.status) == Some(Draft)
  {
    var f := CreateFields(Submitted(NewFormData));
    assert f.title == Some("");
    assert Trim("") == "";
    assert Validate(f) == Some(TitleRequired);
  }

  /** The edit form's fields, copied from the stored article, tags joined by `', '`. */
  function EditFormData(a: Article): (fd: FormData)
    ensures fd.title == a.title && fd.content == a.content && fd.summary == a.summary
    ensures ParseCategory(fd.category) == Some(a.category) && ParseStatus(fd.status) == Some(a.status)
    ensures fd.featuredImage == a.featuredImage
    ensures PlainTags(a.tags) ==> ParseTags(Some(fd.tags)) == a.tags
  {
    var fd := FormData(a.title, a.content, a.summary, CategoryName(a.category), Join(a.tags, ", "),
                       StatusName(a.status), a.featuredImage);
    CategoryRoundTrip(a.category);
    StatusRoundTrip(a.status);
    if PlainTags(a.tags) then TagsRoundTrip(a.tags); fd else fd
  }

  /**
   * The edit form's `tags.join(', ')`, parsed back by `updateArticle`'s split
   * and trim, gives the tags back when each is trimmed, non-empty and comma-free.
   */
  lemma {:induction false} TagsRoundTrip(tags: seq<string>)
    requires PlainTags(tags)
    ensures ParseTags(Some(Join(tags, ", "))) == tags
  {
    if tags != [] {
      JoinHead(tags, ", ");
      TrimSplitCommaJoin(tags);
    }
  }

  /** A tag field the browser script has normalised is saved as exactly the tags it shows. */
  lemma NormalizedFieldSaved(value: string)
    ensures ParseTags(Some(ClientHelpers.NormalizedTags(value))) == ClientHelpers.TagList(value)
  {
    TagsRoundTrip(ClientHelpers.TagList(value));
  }

  /** A lone empty tag does not survive the edit form: it joins to `''`, which parses to no tags. */
  lemma LoneEmptyTagLost()
    ensures ParseTags(Some(Join([""], ", "))) == []
  {
  }

  /** What the edit-form route answers. */
  datatype EditResult = EditNotFound | EditForbidden | EditFormShown(formData: FormData, article: Article)

  /** The edit-form handler: 404 for a missing article, then 403 for a non-administrator, then the form. */
  function EditForm(articles: map<Id, Article>, requester: User, id: Id): (r: EditResult)
    ensures id !in articles ==> r == EditNotFound
    ensures id in articles && requester.role != Admin ==> r == EditForbidden
    ensures id in articles && requester.role == Admin ==>
              r == EditFormShown(EditFormData(articles[id]), articles[id])
  {
    if id !in articles then EditNotFound
    else if requester.role != Admin then EditForbidden
    else EditFormShown(EditFormData(articles[id]), articles[id])
  }

  /** Behind the route's `requireAdmin`, the handler's own 403 branch is never taken. */
  lemma EditFormNeverForbiddenBehindGuard(articles: map<Id, Article>, user: Option<User>, x: string, id: Id,
                                          originalUrl: string)
    requires x != ""
    requires RunGuards(ArticleRoute(Get, [x, "edit"]).value.guards, user, originalUrl, None) == Next
    ensures ArticleRoute(Get, [x, "edit"]).value.handler == EditFormPage
    ensures user.Some? && EditForm(articles, user.value, id) != EditForbidden
  {
    ArticleDispatch(Get, [x, "edit"]);
    assert ArticleRoute(Get, [x, "edit"]).value.guards == [AdminOnly];
    assert GuardOutcome(AdminOnly, user, originalUrl, None) == Next;
  }

  /** Trimming every piece of a list of trimmed pieces changes nothing. */
  lemma TrimAllOfTrimmed(ps: seq<string>)
    requires forall k :: 0 <= k < |ps| ==> Trimmed(ps[k])
    ensures TrimAll(ps) == ps
  {
    forall k | 0 <= k < |ps|
      ensures TrimAll(ps)[k] == ps[k]
    {
      TrimOfTrimmed(ps[k]);
    }
  }

  /**
   * Opening the edit form of a stored article and posting it back unchanged,
   * with no new image, saves the same article with only `updatedAt` refreshed.
   */
  lemma {:induction false} ResubmittedEditKeepsArticle(a: Article, now: Millis)
    requires StoredArticle(a) && a.summary != ""
    requires forall k :: 0 <= k < |a.tags| ==> a.tags[k] != "" && ',' !in a.tags[k]
    ensures UpdatedArticle(a, Submitted(EditFormData(a)), None, now) == Built(a.(updatedAt := now))
  {
    var form := Submitted(EditFormData(a));
    ResubmittedFields(a);
    StoredFieldsAssignBack(a);
    assert UpdatedArticle(a, form, None, now) == Built(PreSaveHook(a, false, false, now));
    UnchangedSave(a, now);
  }

  /** Assigning a stored article's own paths to it changes nothing. */
  lemma StoredFieldsAssignBack(a: Article)
    requires StoredArticle(a)
    ensures SchemaAccepts(StoredFields(a)) && Assign(a, StoredFields(a)) == a
  {
    StoredFieldsAccepted(a);
    TrimAllOfTrimmed(a.tags);
    TrimOfTrimmed(a.title);
    CategoryRoundTrip(a.category);
    StatusRoundTrip(a.status);
  }

  /** The paths the posted-back edit form assigns are the stored ones, and the schema accepts them. */
  lemma ResubmittedFields(a: Article)
    requires StoredArticle(a)
    requires forall k :: 0 <= k < |a.tags| ==> a.tags[k] != "" && ',' !in a.tags[k]
    ensures var f := UpdateFields(a, Submitted(EditFormData(a)));
            && f == StoredFields(a)
            && SchemaAccepts(f)
  {
    var fd := EditFormData(a);
    var f := UpdateFields(a, Submitted(fd));
    assert PlainTags(a.tags);
    assert f.tags == a.tags;
    assert fd.status != "";
    StoredFieldsAccepted(a);
  }

  /** The paths of a stored article, as a form that repeats them would assign them. */
  function StoredFields(a: Article): ArticleFields {
    ArticleFields(Some(a.title), Some(a.content), Some(a.summary), Some(CategoryName(a.category)),
                  a.tags, StatusName(a.status))
  }

  /** The schema accepts a stored article's own paths. */
  lemma StoredFieldsAccepted(a: Article)
    requires StoredArticle(a)
    ensures SchemaAccepts(StoredFields(a))
  {
    var f := StoredFields(a);
    assert TitleMinLength <= |Trim(f.title.value)| <= TitleMaxLength by {
      TrimOfTrimmed(a.title);
    }
    assert ParseCategory(f.category.value).Some? by {
      CategoryRoundTrip(a.category);
    }
    assert ParseStatus(f.status).Some? by {
      StatusRoundTrip(a.status);
    }
    forall k | 0 <= k < |f.tags|
      ensures |Trim(f.tags[k])| <= TagMaxLength
    {
      TrimOfTrimmed(a.tags[k]);
    }
  }
}
