/**
 * controllers/articleController.js: the public article list, the author's own
 * list, reading one article, and the create, update and delete handlers. Each
 * page-or-JSON pair of responses is one outcome.
 */
module ArticleController {
  import opened Wrappers
  import opened Base
  import opened Text
  import opened Session
  import opened ArticleModel
  import CommentModel
  import opened Store
  import opened Query

  const DefaultPage := 1
  const DefaultLimit := 10

  /**
   * `parseInt(x) || d`: `None` is a query value that is absent or not a number
   * (`NaN`); it and 0 are falsy and give the default.
   */
  function ParsedOr(q: Option<int>, default: int): (r: int)
    ensures q.Some? && q.value != 0 ==> r == q.value
    ensures q.None? || q.value == 0 ==> r == default
  {
    if q.Some? && q.value != 0 then q.value else default
  }

  /** What a list page reports besides its articles. */
  datatype Pagination = Pagination(currentPage: int, totalPages: int, totalArticles: nat, hasNextPage: bool, hasPrevPage: bool)

  datatype ListResult =
      /** The query failed (500): MongoDB refuses a negative `skip`. */
    | LoadFailed
    | Listed(articles: seq<Article>, pagination: Pagination)

  /**
   * The page arithmetic both list handlers share, over the sorted result set
   * `all`: `skip = (page - 1) * limit`, `totalPages = Math.ceil(total / limit)`.
   */
  function Paginate(all: seq<Article>, page: int, limit: int): (r: ListResult)
    requires limit != 0
    ensures r.LoadFailed? <==> (page - 1) * limit < 0
    ensures r.Listed? ==>
              && r.articles == Window(all, (page - 1) * limit, limit)
              && r.pagination.currentPage == page
              && r.pagination.totalArticles == |all|
              && r.pagination.totalPages == CeilDiv(|all|, limit)
              && r.pagination.hasNextPage == (page < r.pagination.totalPages)
              && r.pagination.hasPrevPage == (page > 1)
  {
    var skip := (page - 1) * limit;
    if skip < 0 then LoadFailed
    else
      var totalPages := CeilDiv(|all|, limit);
      Listed(Window(all, skip, limit), Pagination(page, totalPages, |all|, page < totalPages, page > 1))
  }

  /**
   * With a positive limit, page `p` holds articles exactly when `p` is at most
   * the page count, so "has a next page" means the next page is not empty.
   */
  lemma {:induction false} PageFilledIffWithinTotal(all: seq<Article>, page: int, limit: int)
    requires limit > 0 && page >= 1
    ensures Paginate(all, page, limit).Listed?
    ensures Paginate(all, page, limit).articles != [] <==> page <= CeilDiv(|all|, limit)
  {
    var t := CeilDiv(|all|, limit);
    var skip := (page - 1) * limit;
    assert skip >= 0;
    if page <= t {
      MulMonotone(page - 1, t - 1, limit);
    } else {
      MulMonotone(t, page - 1, limit);
    }
  }

  /** `hasNextPage` holds exactly when the following page is not empty. */
  lemma HasNextMeansMore(all: seq<Article>, page: int, limit: int)
    requires limit > 0 && page >= 1
    ensures Paginate(all, page, limit).Listed? && Paginate(all, page + 1, limit).Listed?
    ensures Paginate(all, page, limit).pagination.hasNextPage <==> Paginate(all, page + 1, limit).articles != []
  {
    PageFilledIffWithinTotal(all, page + 1, limit);
    PageFilledIffWithinTotal(all, page, limit);
  }

  /** A page of a sorted result set is sorted, holds only members of the set, and counts the whole set. */
  lemma PageOfSorted(o: Order, found: seq<Article>, page: int, limit: int)
    requires limit != 0
    ensures var r := Paginate(SortArticles(o, found), page, limit);
            r.Listed? ==>
              && SortedBy(o, r.articles)
              && r.pagination.totalArticles == |found|
              && |r.articles| <= |found|
              && forall k :: 0 <= k < |r.articles| ==> r.articles[k] in found
  {
    var all := SortArticles(o, found);
    var r := Paginate(all, page, limit);
    if r.Listed? {
      WindowSorted(o, all, (page - 1) * limit, limit);
      assert |all| == |found| by {
        assert |multiset(all)| == |multiset(found)|;
      }
      forall k | 0 <= k < |r.articles|
        ensures r.articles[k] in found
      {
        assert r.articles[k] == all[(page - 1) * limit + k];
        assert r.articles[k] in multiset(all);
      }
    }
  }

  /**
   * A page of `find(filter).sort(order)`: sorted, every article as stored and
   * selected by the filter, and the total is `countDocuments(filter)`.
   */
  lemma ListedPage(o: Order, m: map<Id, Article>, f: Filter, textMatch: (string, Article) -> bool, n: nat,
                   page: int, limit: int)
    requires forall id :: id in m ==> m[id].id == id
    requires limit != 0
    ensures var r := Paginate(SortArticles(o, Collect(m, f, textMatch, n)), page, limit);
            r.Listed? ==>
              && SortedBy(o, r.articles)
              && |r.articles| <= r.pagination.totalArticles
              && r.pagination.totalArticles == |MatchingIds(m, f, textMatch, n)|
              && forall k :: 0 <= k < |r.articles| ==>
                   r.articles[k].id in m && m[r.articles[k].id] == r.articles[k] && Matches(f, textMatch, r.articles[k])
    ensures var r := Paginate(SortArticles(o, Collect(m, f, textMatch, n)), page, limit);
            r.Listed? ==> PageAt(r, SortArticles(o, Collect(m, f, textMatch, n)), page, limit)
  {
    var found := Collect(m, f, textMatch, n);
    CollectCount(m, f, textMatch, n);
    PageOfSorted(o, found, page, limit);
  }

  /**
   * Which page a listing shows: the window at `(page - 1) * limit` of the sorted
   * matches, with the page number, the page count over all matches and the two
   * neighbour flags.
   */
  predicate PageAt(r: ListResult, sorted: seq<Article>, page: int, limit: int)
    requires r.Listed? && limit != 0 && (page - 1) * limit >= 0
  {
    && r.articles == Window(sorted, (page - 1) * limit, limit)
    && r.pagination.currentPage == page
    && r.pagination.totalPages == CeilDiv(r.pagination.totalArticles, limit)
    && r.pagination.hasNextPage == (page < r.pagination.totalPages)
    && r.pagination.hasPrevPage == (page > 1)
  }

  /** The query string of `GET /articles`. */
  datatype ListQuery = ListQuery(page: Option<int>, limit: Option<int>, category: Option<string>,
                                 search: Option<string>, author: Option<Id>)

  /** The public filter: published, narrowed by a category other than `all`, an author, a search. */
  function PublicFilter(category: Option<string>, author: Option<Id>, search: Option<string>): (f: Filter)
    ensures f.status == Some(StatusName(Published))
  {
    Filter(Some("published"),
           if Truthy(category) && category.value != "all" then category else None,
           author,
           if Truthy(search) then search else None)
  }

  /** What the public filter selects, stated on the article. */
  lemma PublicFilterMeaning(category: Option<string>, author: Option<Id>, search: Option<string>,
                            textMatch: (string, Article) -> bool, a: Article)
    ensures Matches(PublicFilter(category, author, search), textMatch, a) <==>
              && a.status == Published
              && (Truthy(category) && category.value != "all" ==> CategoryName(a.category) == category.value)
              && (author.Some? ==> a.author == author.value)
              && (Truthy(search) ==> textMatch(search.value, a))
  {
  }

  /**
   * `getAllArticles`: one page of the published articles the query selects,
   * newest publication first, with the page arithmetic over all of them.
   */
  function GetAllArticles(db: Database, q: ListQuery, textMatch: (string, Article) -> bool): (r: ListResult)
    reads db
    requires ArticlesKeyed(db.articles, db.nextId)
    ensures var page := ParsedOr(q.page, DefaultPage);
            var limit := ParsedOr(q.limit, DefaultLimit);
            r.LoadFailed? <==> (page - 1) * limit < 0
    ensures r.Listed? ==>
              && SortedBy(ByPublishedThenCreated, r.articles)
              && |r.articles| <= r.pagination.totalArticles
              && r.pagination.totalArticles == |MatchingIds(db.articles, PublicFilter(q.category, q.author, q.search), textMatch, db.nextId)|
              && forall k :: 0 <= k < |r.articles| ==>
                   && r.articles[k].id in db.articles && db.articles[r.articles[k].id] == r.articles[k]
                   && r.articles[k].status == Published
                   && Matches(PublicFilter(q.category, q.author, q.search), textMatch, r.articles[k])
    ensures r.Listed? ==>
              PageAt(r, SortArticles(ByPublishedThenCreated, Collect(db.articles, PublicFilter(q.category, q.author, q.search),
                                                                     textMatch, db.nextId)),
                     ParsedOr(q.page, DefaultPage), ParsedOr(q.limit, DefaultLimit))
  {
    var page := ParsedOr(q.page, DefaultPage);
    var limit := ParsedOr(q.limit, DefaultLimit);
    PublicPage(db.articles, q, textMatch, db.nextId);
    Paginate(SortArticles(ByPublishedThenCreated, Collect(db.articles, PublicFilter(q.category, q.author, q.search),
                                                          textMatch, db.nextId)), page, limit)
  }

  /** The public page holds only published articles the filter selects. */
  lemma PublicPage(m: map<Id, Article>, q: ListQuery, textMatch: (string, Article) -> bool, n: nat)
    requires forall id :: id in m ==> m[id].id == id
    ensures var f := PublicFilter(q.category, q.author, q.search);
            var r := Paginate(SortArticles(ByPublishedThenCreated, Collect(m, f, textMatch, n)),
                              ParsedOr(q.page, DefaultPage), ParsedOr(q.limit, DefaultLimit));
            r.Listed? ==>
              && SortedBy(ByPublishedThenCreated, r.articles)
              && |r.articles| <= r.pagination.totalArticles
              && r.pagination.totalArticles == |MatchingIds(m, f, textMatch, n)|
              && forall k :: 0 <= k < |r.articles| ==>
                   && r.articles[k].id in m && m[r.articles[k].id] == r.articles[k]
                   && r.articles[k].status == Published
                   && Matches(f, textMatch, r.articles[k])
    ensures var f := PublicFilter(q.category, q.author, q.search);
            var r := Paginate(SortArticles(ByPublishedThenCreated, Collect(m, f, textMatch, n)),
                              ParsedOr(q.page, DefaultPage), ParsedOr(q.limit, DefaultLimit));
            r.Listed? ==> PageAt(r, SortArticles(ByPublishedThenCreated, Collect(m, f, textMatch, n)),
                                 ParsedOr(q.page, DefaultPage), ParsedOr(q.limit, DefaultLimit))
  {
    var f := PublicFilter(q.category, q.author, q.search);
    var r := Paginate(SortArticles(ByPublishedThenCreated, Collect(m, f, textMatch, n)),
                      ParsedOr(q.page, DefaultPage), ParsedOr(q.limit, DefaultLimit));
    ListedPage(ByPublishedThenCreated, m, f, textMatch, n, ParsedOr(q.page, DefaultPage), ParsedOr(q.limit, DefaultLimit));
    if r.Listed? {
      forall k | 0 <= k < |r.articles|
        ensures r.articles[k].status == Published
      {
        PublicFilterMeaning(q.category, q.author, q.search, textMatch, r.articles[k]);
      }
    }
  }

  /** The query string of `GET /articles/my`. */
  datatype MyQuery = MyQuery(page: Option<int>, limit: Option<int>, status: Option<string>)

  /** The author's filter: their articles, narrowed by a status other than `all`. */
  function OwnFilter(author: Id, status: Option<string>): (f: Filter)
    ensures f.author == Some(author) && f.category.None? && f.search.None?
  {
    Filter(if Truthy(status) && status.value != "all" then status else None, None, Some(author), None)
  }

  lemma OwnFilterMeaning(author: Id, status: Option<string>, textMatch: (string, Article) -> bool, a: Article)
    ensures Matches(OwnFilter(author, status), textMatch, a) <==>
              a.author == author && (Truthy(status) && status.value != "all" ==> StatusName(a.status) == status.value)
  {
  }

  /** `getUserArticles`: one page of the requester's own articles of any status, newest first. */
  function GetUserArticles(db: Database, requester: User, q: MyQuery): (r: ListResult)
    reads db
    requires ArticlesKeyed(db.articles, db.nextId)
    ensures var page := ParsedOr(q.page, DefaultPage);
            var limit := ParsedOr(q.limit, DefaultLimit);
            r.LoadFailed? <==> (page - 1) * limit < 0
    ensures r.Listed? ==>
              && SortedBy(ByCreated, r.articles)
              && r.pagination.totalArticles == |MatchingIds(db.articles, OwnFilter(requester.id, q.status), (_, _) => true, db.nextId)|
              && forall k :: 0 <= k < |r.articles| ==>
                   && r.articles[k].id in db.articles && db.articles[r.articles[k].id] == r.articles[k]
                   && r.articles[k].author == requester.id
                   && (Truthy(q.status) && q.status.value != "all" ==> StatusName(r.articles[k].status) == q.status.value)
    ensures r.Listed? ==>
              PageAt(r, SortArticles(ByCreated, Collect(db.articles, OwnFilter(requester.id, q.status), (_, _) => true,
                                                        db.nextId)),
                     ParsedOr(q.page, DefaultPage), ParsedOr(q.limit, DefaultLimit))
  {
    var page := ParsedOr(q.page, DefaultPage);
    var limit := ParsedOr(q.limit, DefaultLimit);
    OwnPage(db.articles, requester.id, q, db.nextId);
    Paginate(SortArticles(ByCreated, Collect(db.articles, OwnFilter(requester.id, q.status), (_, _) => true, db.nextId)),
             page, limit)
  }

  /** The author's page holds only their own articles, of the status asked for. */
  lemma OwnPage(m: map<Id, Article>, author: Id, q: MyQuery, n: nat)
    requires forall id :: id in m ==> m[id].id == id
    ensures var f := OwnFilter(author, q.status);
            var r := Paginate(SortArticles(ByCreated, Collect(m, f, (_, _) => true, n)),
                              ParsedOr(q.page, DefaultPage), ParsedOr(q.limit, DefaultLimit));
            r.Listed? ==>
              && SortedBy(ByCreated, r.articles)
              && r.pagination.totalArticles == |MatchingIds(m, f, (_, _) => true, n)|
              && forall k :: 0 <= k < |r.articles| ==>
                   && r.articles[k].id in m && m[r.articles[k].id] == r.articles[k]
                   && r.articles[k].author == author
                   && (Truthy(q.status) && q.status.value != "all" ==> StatusName(r.articles[k].status) == q.status.value)
    ensures var f := OwnFilter(author, q.status);
            var r := Paginate(SortArticles(ByCreated, Collect(m, f, (_, _) => true, n)),
                              ParsedOr(q.page, DefaultPage), ParsedOr(q.limit, DefaultLimit));
            r.Listed? ==> PageAt(r, SortArticles(ByCreated, Collect(m, f, (_, _) => true, n)),
                                 ParsedOr(q.page, DefaultPage), ParsedOr(q.limit, DefaultLimit))
  {
    var f := OwnFilter(author, q.status);
    var tm: (string, Article) -> bool := (_, _) => true;
    var r := Paginate(SortArticles(ByCreated, Collect(m, f, tm, n)),
                      ParsedOr(q.page, DefaultPage), ParsedOr(q.limit, DefaultLimit));
    ListedPage(ByCreated, m, f, tm, n, ParsedOr(q.page, DefaultPage), ParsedOr(q.limit, DefaultLimit));
    if r.Listed? {
      forall k | 0 <= k < |r.articles|
        ensures r.articles[k].author == author
        ensures Truthy(q.status) && q.status.value != "all" ==> StatusName(r.articles[k].status) == q.status.value
      {
        OwnFilterMeaning(author, q.status, tm, r.articles[k]);
      }
    }
  }

  /**
   * Who may read an article: anyone when it is published, otherwise only its
   * author or an administrator.
   */
  predicate CanView(requester: Option<User>, a: Article)
    ensures a.status == Published ==> CanView(requester, a)
    ensures requester.None? ==> (CanView(requester, a) <==> a.status == Published)
    ensures requester.Some? && requester.value.role == Admin ==> CanView(requester, a)
    ensures requester.Some? && requester.value.id == a.author ==> CanView(requester, a)
  {
    a.status == Published || (requester.Some? && (requester.value.id == a.author || requester.value.role == Admin))
  }

  datatype ReadResult = ArticleNotFound | AccessDenied | Found(article: Article)

  /**
   * `getArticle`: 404 for an unknown identifier, 403 for an unpublished article
   * the requester may not see, else the article as it was read; a published
   * article's view count then goes up by one, and nothing else changes.
   */
  method GetArticle(db: Database, requester: Option<User>, id: Id) returns (r: ReadResult)
    requires db.Valid()
    modifies db
    ensures db.Valid()
    ensures id !in old(db.articles) ==> r == ArticleNotFound
    ensures id in old(db.articles) && !CanView(requester, old(db.articles)[id]) ==> r == AccessDenied
    ensures id in old(db.articles) && CanView(requester, old(db.articles)[id]) ==> r == Found(old(db.articles)[id])
    ensures r.Found? && r.article.status == Published ==>
              db.articles == old(db.articles)[id := r.article.(views := r.article.views + 1)]
    ensures !(r.Found? && r.article.status == Published) ==> db.articles == old(db.articles)
    ensures db.users == old(db.users) && db.comments == old(db.comments) && db.nextId == old(db.nextId)
  {
    if id !in db.articles {
      r := ArticleNotFound;
    } else if !CanView(requester, db.articles[id]) {
      r := AccessDenied;
    } else {
      r := Found(db.articles[id]);
      if r.article.status == Published {
        assert StoredArticle(r.article);
        db.ReplaceArticle(r.article.(views := r.article.views + 1));
      }
    }
  }

  /** The body of the create and update forms; a missing field is `None`. */
  datatype ArticleForm = ArticleForm(title: Option<string>, content: Option<string>, summary: Option<string>,
                                     category: Option<string>, tags: Option<string>, status: Option<string>)

  /** `tags ? tags.split(',').map(tag => tag.trim()) : []`. */
  function ParseTags(tags: Option<string>): (r: seq<string>)
    ensures !Truthy(tags) ==> r == []
    ensures Truthy(tags) ==> |r| == |Split(tags.value, ',')|
    ensures Truthy(tags) ==> forall k :: 0 <= k < |r| ==> r[k] == Trim(Split(tags.value, ',')[k])
    ensures forall k :: 0 <= k < |r| ==> Trimmed(r[k]) && ',' !in r[k]
  {
    if !Truthy(tags) then []
    else
      var pieces := Split(tags.value, ',');
      SplitPiecesFree(tags.value, ',');
      forall k | 0 <= k < |pieces| ensures ',' !in Trim(pieces[k]) {
        TrimKeepsOut(pieces[k], ',');
      }
      TrimAll(pieces)
  }

  /** Where multer stores article images, as the site serves them. */
  const UploadDir := "/uploads/articles/"

  /**
   * The image path multer's upload gives an article: inside the upload
   * directory, so the clean-up's `startsWith('/uploads/')` test accepts it,
   * and ending in the uploaded file's name.
   */
  function ImagePath(filename: string): (r: string)
    ensures |r| == |UploadDir| + |filename| && r[..|UploadDir|] == UploadDir && r[|UploadDir|..] == filename
    ensures r[..9] == "/uploads/"
  {
    UploadDir + filename
  }

  /** Either the schema's complaint or the document that is saved. */
  datatype Built = Invalid(error: ValidationError) | Built(article: Article)

  /**
   * The paths `createArticle` sets: a missing category falls to the schema's
   * default, a missing or empty status becomes `draft`.
   */
  function CreateFields(form: ArticleForm): (f: ArticleFields)
    ensures f.title == form.title && f.content == form.content && f.summary == form.summary
    ensures f.category == Some(form.category.GetOr(CategoryName(Other)))
    ensures f.tags == ParseTags(form.tags) && f.status == OrElse(form.status, StatusName(Draft))
  {
    ArticleFields(form.title, form.content, form.summary, Some(form.category.GetOr("Other")),
                  ParseTags(form.tags), OrElse(form.status, "draft"))
  }

  /**
   * The article `createArticle` saves: the defaults, the form's paths, the
   * uploaded image, then the pre-save hook with content and status both new.
   * What the saved article holds is `CreatedStored` and `CreatedArticleMeaning`.
   */
  function CreatedArticle(id: Id, author: Id, form: ArticleForm, upload: Option<string>, now: Millis): (r: Built)
    ensures r.Invalid? <==> !SchemaAccepts(CreateFields(form))
    ensures r.Invalid? ==> Validate(CreateFields(form)) == Some(r.error)
    ensures r.Built? ==> r.article.id == id && r.article.author == author
  {
    var f := CreateFields(form);
    if Validate(f).Some? then Invalid(Validate(f).value)
    else
      var filled := Assign(Defaults(id, author, now), f);
      var withImage := if upload.Some? then filled.(featuredImage := ImagePath(upload.value)) else filled;
      Built(PreSaveHook(withImage, true, true, now))
  }

  /** Every article `createArticle` saves satisfies the stored-article invariant. */
  lemma CreatedStored(id: Id, author: Id, form: ArticleForm, upload: Option<string>, now: Millis)
    requires CreatedArticle(id, author, form, upload, now).Built?
    ensures StoredArticle(CreatedArticle(id, author, form, upload, now).article)
  {
    var base := Defaults(id, author, now);
    var image := if upload.Some? then ImagePath(upload.value) else base.featuredImage;
    AssignedSaveWellFormed(base, CreateFields(form), image, true, true, now);
  }

  /**
   * A created article starts with no views, likes or comments and both dates at
   * `now`; it holds the trimmed title, the content, the parsed tags and the status
   * given or `draft`; it has the uploaded image or none, the read time of its
   * content, the summary given or one derived from the content, and a
   * publication date exactly when it is published.
   */
  lemma CreatedArticleMeaning(id: Id, author: Id, form: ArticleForm, upload: Option<string>, now: Millis)
    requires CreatedArticle(id, author, form, upload, now).Built?
    ensures var a := CreatedArticle(id, author, form, upload, now).article;
            && a.views == 0 && a.likes == [] && a.comments == []
            && a.createdAt == now && a.updatedAt == now
            && a.title == Trim(form.title.value) && a.content == form.content.value
            && a.tags == TrimAll(ParseTags(form.tags))
            && StatusName(a.status) == OrElse(form.status, "draft")
            && a.featuredImage == (if upload.Some? then ImagePath(upload.value) else "")
            && (a.readTime - 1) * WordsPerMinute < WordCount(a.content) <= a.readTime * WordsPerMinute
            && (a.status == Published <==> a.publishedAt == Some(now))
            && (Truthy(form.summary) ==> a.summary == form.summary.value)
            && (!Truthy(form.summary) ==> a.summary == DerivedSummary(a.content))
  {
  }

  /**
   * The paths `updateArticle` sets on the stored article `a`: every form field
   * is filled as sent, so a missing title, content or category fails the
   * schema, and a missing status keeps the current one.
   */
  function UpdateFields(a: Article, form: ArticleForm): (f: ArticleFields)
    ensures f.title == form.title && f.content == form.content && f.summary == form.summary
    ensures f.category == form.category && f.tags == ParseTags(form.tags)
    ensures f.status == OrElse(form.status, StatusName(a.status))
  {
    ArticleFields(form.title, form.content, form.summary, form.category, ParseTags(form.tags),
                  OrElse(form.status, StatusName(a.status)))
  }

  /**
   * The article `updateArticle` saves in place of `a`. Identity and author
   * stay; the rest is `UpdatedStored` and `UpdatedArticleMeaning`.
   */
  function UpdatedArticle(a: Article, form: ArticleForm, upload: Option<string>, now: Millis): (r: Built)
    ensures r.Invalid? <==> !SchemaAccepts(UpdateFields(a, form))
    ensures r.Invalid? ==> Validate(UpdateFields(a, form)) == Some(r.error)
    ensures r.Built? ==> r.article.id == a.id && r.article.author == a.author
  {
    var f := UpdateFields(a, form);
    if Validate(f).Some? then Invalid(Validate(f).value)
    else
      var filled := Assign(a, f);
      var withImage := if upload.Some? then filled.(featuredImage := ImagePath(upload.value)) else filled;
      Built(PreSaveHook(withImage, withImage.content != a.content, withImage.status != a.status, now))
  }

  /** An update replaces a stored article by a stored one. */
  lemma UpdatedStored(a: Article, form: ArticleForm, upload: Option<string>, now: Millis)
    requires UpdatedArticle(a, form, upload, now).Built? && StoredArticle(a)
    ensures StoredArticle(UpdatedArticle(a, form, upload, now).article)
  {
    var f := UpdateFields(a, form);
    var image := if upload.Some? then ImagePath(upload.value) else a.featuredImage;
    var withImage := Assign(a, f).(featuredImage := image);
    AssignedSaveWellFormed(a, f, image, withImage.content != a.content, withImage.status != a.status, now);
  }

  /**
   * The hook sees content and status as modified only when they change. Views,
   * likes, comments and creation date stay; title, content, category and status
   * are the form's (the status kept when none is sent); the image is replaced
   * only by an upload; the read time changes only with the content; a
   * publication date, once set, stays. The tags are the re-parsed form field,
   * and a missing or empty summary is derived again from the new content.
   */
  lemma UpdatedArticleMeaning(a: Article, form: ArticleForm, upload: Option<string>, now: Millis)
    requires UpdatedArticle(a, form, upload, now).Built?
    ensures var b := UpdatedArticle(a, form, upload, now).article;
            && b.views == a.views && b.likes == a.likes
            && b.comments == a.comments && b.createdAt == a.createdAt && b.updatedAt == now
            && b.title == Trim(form.title.value) && b.content == form.content.value
            && CategoryName(b.category) == form.category.value
            && StatusName(b.status) == OrElse(form.status, StatusName(a.status))
            && b.featuredImage == (if upload.Some? then ImagePath(upload.value) else a.featuredImage)
            && (b.content == a.content ==> b.readTime == a.readTime)
            && (b.content != a.content ==>
                  (b.readTime - 1) * WordsPerMinute < WordCount(b.content) <= b.readTime * WordsPerMinute)
            && (a.publishedAt.Some? ==> b.publishedAt == a.publishedAt)
            && (a.publishedAt.None? && b.status == Published && a.status != Published ==> b.publishedAt == Some(now))
            && b.tags == TrimAll(ParseTags(form.tags))
            && (Truthy(form.summary) ==> b.summary == form.summary.value)
            && (!Truthy(form.summary) ==> b.summary == DerivedSummary(b.content))
  {
  }

  datatype WriteResult = WriteNotFound | WriteForbidden | Rejected(error: ValidationError) | Saved(id: Id)

  /**
   * `createArticle` for a signed-in requester: the article is saved under a fresh
   * identifier and appended to the requester's list, or the schema rejects it
   * and nothing changes.
   */
  method CreateArticle(db: Database, requester: User, form: ArticleForm, upload: Option<string>, now: Millis)
    returns (r: WriteResult)
    requires db.Valid() && requester.id in db.users
    modifies db
    ensures db.Valid()
    ensures r.Saved? || r.Rejected?
    ensures var built := CreatedArticle(old(db.nextId), requester.id, form, upload, now);
            && (r.Rejected? <==> built.Invalid?)
            && (r.Rejected? ==> r.error == built.error && db.articles == old(db.articles) &&
                                db.users == old(db.users) && db.nextId == old(db.nextId))
            && (r.Saved? ==>
                  && r.id == old(db.nextId) && db.nextId == old(db.nextId) + 1
                  && db.articles == old(db.articles)[r.id := built.article]
                  && db.users == PushArticle(old(db.users), requester.id, r.id))
    ensures db.comments == old(db.comments)
  {
    var id := db.nextId;
    var built := CreatedArticle(id, requester.id, form, upload, now);
    if built.Invalid? {
      return Rejected(built.error);
    }
    CreatedStored(id, requester.id, form, upload, now);
    db.InsertArticle(built.article);
    r := Saved(id);
  }

  /**
   * `updateArticle`: 404 for an unknown identifier, 403 unless the requester is
   * an administrator, a rejection leaving everything as it was, or the updated
   * article in place of the old one.
   */
  method UpdateArticle(db: Database, requester: User, id: Id, form: ArticleForm, upload: Option<string>, now: Millis)
    returns (r: WriteResult)
    requires db.Valid()
    modifies db
    ensures db.Valid()
    ensures id !in old(db.articles) ==> r == WriteNotFound
    ensures id in old(db.articles) && requester.role != Admin ==> r == WriteForbidden
    ensures id in old(db.articles) && requester.role == Admin ==>
              var built := UpdatedArticle(old(db.articles)[id], form, upload, now);
              && (built.Invalid? ==> r == Rejected(built.error))
              && (built.Built? ==> r == Saved(id) && db.articles == old(db.articles)[id := built.article])
    ensures !r.Saved? ==> db.articles == old(db.articles)
    ensures db.users == old(db.users) && db.comments == old(db.comments) && db.nextId == old(db.nextId)
  {
    if id !in db.articles {
      return WriteNotFound;
    }
    if requester.role != Admin {
      return WriteForbidden;
    }
    var a := db.articles[id];
    var built := UpdatedArticle(a, form, upload, now);
    if built.Invalid? {
      return Rejected(built.error);
    }
    assert StoredArticle(a);
    UpdatedStored(a, form, upload, now);
    db.ReplaceArticle(built.article);
    r := Saved(id);
  }

  datatype DeleteResult = DeleteNotFound | DeleteForbidden | Deleted

  /**
   * `deleteArticle`: 404 for an unknown identifier, 403 unless the requester is
   * an administrator; otherwise the article's comments, its entry in its
   * author's list and the article itself are removed.
   */
  method DeleteArticle(db: Database, requester: User, id: Id) returns (r: DeleteResult)
    requires db.Valid()
    modifies db
    ensures db.Valid()
    ensures id !in old(db.articles) ==> r == DeleteNotFound
    ensures id in old(db.articles) && requester.role != Admin ==> r == DeleteForbidden
    ensures id in old(db.articles) && requester.role == Admin ==>
              && r == Deleted
              && db.articles == old(db.articles) - {id}
              && db.comments == CommentsNotOn(old(db.comments), id)
              && db.users == PullArticle(old(db.users), old(db.articles)[id].author, id)
    ensures r != Deleted ==>
              db.articles == old(db.articles) && db.comments == old(db.comments) && db.users == old(db.users)
    ensures db.nextId == old(db.nextId)
  {
    if id !in db.articles {
      return DeleteNotFound;
    }
    if requester.role != Admin {
      return DeleteForbidden;
    }
    db.RemoveArticle(id);
    r := Deleted;
  }

  /** After a deletion no user lists the article any more. */
  lemma DeletionLeavesNoReference(db: Database, id: Id)
    requires db.Valid()
    requires id in db.articles
    ensures var users := PullArticle(db.users, db.articles[id].author, id);
            forall u :: u in users ==> id !in users[u].articles
  {
    var users := PullArticle(db.users, db.articles[id].author, id);
    forall u | u in users
      ensures id !in users[u].articles
    {
      if u != db.articles[id].author {
        assert users[u] == db.users[u];
      }
    }
  }
}
