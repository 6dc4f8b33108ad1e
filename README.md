# Blog rule engine — a Dafny model

This project models the decision logic of an Express/Mongoose blog. The blog has users (`user` or `admin`), articles and comments, and a small browser script.

The model keeps the rules and leaves out the HTTP and database plumbing. It covers:

- the two Mongoose documents' schema constraints, defaults, virtuals and pre-save hooks;
- the article controller's listing, visibility, view counting, tag parsing, create, update and cascading delete;
- the authentication controller's register, login, logout, current-user and profile update;
- the authentication middleware;
- the three routers' tables, with Express's first-match dispatch and each route's guard chain;
- the form defaults, the edit form and the dashboard and user-detail pages of the routers;
- the browser helpers for e-mail shape, form validation, tag input and the character counter.

The database is a class, `Store.Database`. It holds maps from identifiers to user, article and comment records and a counter for fresh identifiers. Its invariant `Valid()` states the following:

- user and article records are keyed by their own identifiers;
- e-mail addresses and usernames are unique;
- there are at most three administrators;
- every article has an existing author and is listed in its author's `articles`;
- every stored article satisfies the schema.

Operations that change the database are methods with `modifies db`. Each one states its whole new state in terms of a pure function on the old state. Pure decisions are functions. The properties that relate several calls are lemmas.

The clock, `Date.now()`, is a parameter `now` in milliseconds.

JSON Web Tokens are a datatype `Token`. It is either `Signed(claims, issuedAt, expiresAt)` or `Unverifiable(raw)`, which stands for a forged or garbled token. `Verify` accepts a signed token until its expiry second.

A stored password is a `Digest` of the plain password. `comparePassword` holds exactly when the candidate is present and has the same digest.

Content negotiation is collapsed to one outcome per path. For example, `LoginRequired(url)` stands for both the 401 JSON answer and the redirect to the login page.

Modules and the files they model:

| module | file | models |
|---|---|---|
| `Wrappers`, `Base` | wrappers.dfy | `Option`, JavaScript truthiness and `||` defaults, identifiers, ceiling division |
| `Text` | text.dfy | `trim`, `split`, `join`, splitting on white-space runs |
| `ArticleModel` | article_model.dfy | models/Article.js |
| `CommentModel` | comment_model.dfy | models/Comment.js |
| `Session` | session.dfy | token payload and lifetime, cookie options |
| `Store` | store.dfy | the collections and their invariant |
| `AuthMiddleware` | auth_middleware.dfy | middleware/auth.js |
| `AuthController` | auth_controller.dfy | controllers/authController.js |
| `Query` | query.dfy | `find` filters, sorting and `skip`/`limit` windows |
| `ArticleController` | article_controller.dfy | controllers/articleController.js |
| `Routing` | routing.dfy | first-match dispatch and guard chains |
| `ArticleRoutes`, `AuthRoutes`, `UserRoutes` | routes_*.dfy | routes/articles.js, routes/auth.js, routes/users.js |
| `ClientHelpers` | client.dfy | public/js/main.js |

## Model

| member | source | states |
|---|---|---|
| ArticleModel.ParseCategory | models/Article.js:26-31 | a string is accepted exactly when it names one of the ten categories, and it parses to that category |
| ArticleModel.CategoryRoundTrip | models/Article.js:26-31 | every category's name parses back to that category |
| ArticleModel.ParseStatus | models/Article.js:37-41 | a string is accepted exactly when it is `draft`, `published` or `archived` |
| ArticleModel.StatusRoundTrip | models/Article.js:37-41 | every status's name parses back to that status |
| ArticleModel.Validate | models/Article.js:4-41 | no error is reported exactly when the schema accepts the fields: trimmed title of 5 to 200 characters, content of at least 10, summary of at most 500, a known category and status, and tags of at most 50 characters |
| ArticleModel.Defaults | models/Article.js:30-53 | a new document has category `Other`, status `draft`, no tags, an empty summary and image, read time 1, zero views, no likes or comments, and both dates set to now |
| ArticleModel.Assign | models/Article.js:4-36 | assigning fields changes exactly title, content, summary, category, tags and status; the title and every tag pass through the trimming setter |
| ArticleModel.SavesKeepCounts | models/Article.js:105-112 | the `likeCount` and `commentCount` virtuals are unchanged by any run of saves; a new document starts both at zero (`Defaults`) |
| ArticleModel.WordCount | models/Article.js:79 | the piece count is exactly one more than the number of maximal white-space runs (`Text.WhiteSpaceRuns`, counted position by position), on every string; hence at least 1 |
| Text.SplitWhitespaceCount | models/Article.js:79 | `split(/\s+/)` yields exactly one piece more than the string has maximal white-space runs, for every string, leading and trailing white space included |
| ArticleModel.PaddedWordCount | models/Article.js:79 | leading, trailing and repeated white space all count: `"  a  b  "` has four pieces |
| ArticleModel.ReadTime | models/Article.js:78-80 | the read time is the ceiling of word count over 200: at least 1, with (r-1)·200 < words ≤ r·200 |
| ArticleModel.ReadTimeOfWords | models/Article.js:78-80 | for words joined by single spaces, the word count is the number of words and the read time is ceil(words/200) |
| ArticleModel.DerivedSummary | models/Article.js:84-86 | the derived summary starts with the first 200 characters of the content; it ends in `...` exactly when the content is longer than 200; it equals short content and never exceeds the 500-character limit |
| ArticleModel.PreSaveHook | models/Article.js:76-95 | only read time, summary, publish date and update date change; read time is recomputed exactly when the content is modified; a non-empty summary is kept and an empty one is derived from non-empty content; the publish date is set once, when the status is modified to published; the update date is always now |
| ArticleModel.PreSaveWellFormed | models/Article.js:4-95 | a save of schema-valid fields always yields an article that satisfies the stored-article invariant |
| ArticleModel.AssignedSaveWellFormed | models/Article.js:4-95 | assigning schema-valid fields to a stored article, with any image, and saving with the status marked modified whenever it changed, yields a stored article |
| ArticleModel.UnchangedSave | models/Article.js:76-95 | a save that modifies neither content nor status, of an article with a summary, changes only the update date |
| ArticleModel.PublishedAtSetOnce | models/Article.js:89-91 | once set, the publish date survives any sequence of saves |
| ArticleModel.SummaryNeverOverwritten | models/Article.js:84-86 | a non-empty summary survives any sequence of saves |
| ArticleModel.ReadTimeStaysPositive | models/Article.js:50-53 | starting from the default of 1, no sequence of saves brings the read time below 1 |
| ArticleModel.PublishedKeepsDate | models/Article.js:89-91 | a published article keeps a publish date through saves that leave its status alone |
| ArticleModel.ArticleDocument.constructor | models/Article.js:3-73 | the document holds the given record |
| ArticleModel.ArticleDocument.PreSave | models/Article.js:76-95 | the document becomes the hook applied to its old state |
| CommentModel.ParseCommentStatus | models/Comment.js:34-38 | a status is accepted exactly when it is `pending`, `approved` or `rejected`, and it parses to the status of that name |
| CommentModel.CommentStatusRoundTrip | models/Comment.js:34-38 | every comment status's name parses back to that status |
| CommentModel.EditsKeepCounts | models/Comment.js:74-81 | the `likeCount` and `replyCount` virtuals are unchanged by any run of saves; a new comment starts both at zero (`NewComment`) |
| CommentModel.ValidContent | models/Comment.js:4-10 | content is accepted exactly when its trimmed form has 1 to 1000 characters, and the trimmed form is what is stored |
| CommentModel.NewComment | models/Comment.js:4-54 | a new comment exists exactly when its content is valid; it is approved, not edited, has no likes or replies, and is stamped now |
| CommentModel.PreSaveHook | models/Comment.js:57-66 | only the update date, edited flag and edit date change; the update date is now; a content change on a save that is not the first sets the flag and stamps the edit date; otherwise both stay; the flag is never cleared |
| CommentModel.FirstSaveNotEdited | models/Comment.js:60 | the first save of a new comment leaves it unedited, with no edit date |
| CommentModel.EditedIsMonotone | models/Comment.js:60-63 | an edited comment stays edited through any later saves |
| CommentModel.EditedIffSomeEdit | models/Comment.js:60-63 | an unedited comment becomes edited exactly when some later save changes its content |
| CommentModel.LastEditStamps | models/Comment.js:60-63 | after a run of saves, the edit date is the time of the last content-changing save |
| CommentModel.NoEditKeepsStamp | models/Comment.js:60-63 | saves that never change the content leave the edit date as it was |
| CommentModel.StampOfLastEdit | models/Comment.js:60-63 | the edit date is the time of a content-changing save that no later save follows with a content change |
| CommentModel.CommentDocument.constructor | models/Comment.js:3-54 | a new document is marked new |
| CommentModel.CommentDocument.Save | models/Comment.js:57-66 | the document becomes the hook applied to its old state and is no longer new |
| Session.ParseRole | controllers/authController.js:31 | a role is accepted exactly when it is `user` or `admin` |
| Session.GenerateToken | controllers/authController.js:5-11 | the token is signed with payload exactly (userId, role) and expires seven days after issue |
| Session.Verify | controllers/authController.js:5-11 | verification returns the payload exactly when the token is signed and not expired |
| Session.VerifyGenerated | controllers/authController.js:5-11 | a generated token verifies to its own user and role for seven days, and not after |
| Session.TokenExpiresWithinCookie | controllers/authController.js:5-23 | a token that still verifies is younger than the cookie's lifetime |
| Session.TokenCookie | controllers/authController.js:14-23 | the cookie is HTTP-only, secure only in production, same-site strict, and lives 7·24·60·60·1000 ms |
| Store.PasswordMatchesIff | controllers/authController.js:146 | the digest of a password is matched by that password and by no other candidate, and never by a missing one |
| Store.ComparePassword | controllers/authController.js:146 | a missing password never matches |
| Store.PublicForgetsOnlyPassword | controllers/authController.js:223-238 | `select('-password')` forgets the password and nothing else: two users have the same public view exactly when they differ at most in the password |
| Store.AdminIds | controllers/authController.js:44 | the set holds exactly the administrators' identifiers |
| Store.AdminCountInsert | controllers/authController.js:43-88 | adding a user raises the administrator count by one exactly when it is an administrator |
| Store.AdminCountUpdate | controllers/authController.js:241-273 | replacing a user by one with the same role keeps the administrator count |
| Store.Without | controllers/articleController.js:409-411 | `$pull` removes every occurrence and keeps every other element |
| Store.PushArticle | controllers/articleController.js:228-230 | `$push` appends the id to the author's list and changes no other user |
| Store.PullArticle | controllers/articleController.js:409-411 | `$pull` removes the id from the author's list only |
| Store.CommentsNotOn | controllers/articleController.js:406 | `deleteMany` keeps exactly the comments of other articles |
| Store.InsertArticleConsistent | controllers/articleController.js:224-230 | saving a new article and pushing it to its author keeps the invariant |
| Store.ReplaceArticleConsistent | controllers/articleController.js:310-330 | replacing an article by one with the same id and author keeps the invariant |
| Store.DeleteArticleConsistent | controllers/articleController.js:406-414 | the cascade keeps the invariant: comments, then the author's list, then the article |
| Store.InsertUserConsistent | controllers/authController.js:78-88 | adding a fresh, unique user under the admin cap keeps the invariant |
| Store.UpdateUserConsistent | controllers/authController.js:241-273 | changing only first name, last name and bio keeps the invariant |
| Store.FirstWithEmail | controllers/authController.js:132 | `findOne({ email })` returns a user with that address, or reports that none below the counter has it |
| Store.FirstWithEmailUnique | controllers/authController.js:132 | with unique addresses, the lookup finds the one user with that address |
| Store.Database.InsertArticle | controllers/articleController.js:224-230 | a stored article under the next id is saved and pushed onto its author's list; the counter moves on; the invariant is kept |
| Store.Database.ReplaceArticle | controllers/articleController.js:310-330 | a stored article replaces the one with its id and author; nothing else changes; the invariant is kept |
| Store.Database.RemoveArticle | controllers/articleController.js:406-414 | the article's comments, its entry in its author's list and the article go; nothing else changes; the invariant is kept |
| Store.Database.InsertUser | controllers/authController.js:78-88 | a fresh, unique user with no articles, under the administrator cap, is saved under the next id; the invariant is kept |
| Store.Database.ReplaceUser | controllers/authController.js:241-273 | a user differing only in first name, last name and bio replaces the stored one; the invariant is kept |
| AuthMiddleware.ResolveToken | middleware/auth.js:5-31 | with no cookie, the requester is anonymous and the cookie stays; with a token that fails verification or names a missing user, the cookie is cleared and the requester is anonymous; otherwise the requester is the stored record |
| AuthMiddleware.Present | middleware/auth.js:9 | every signed token counts as sent; only a missing cookie or unverifiable text can fail the `!token` test, so no valid token is ignored |
| AuthMiddleware.ResolveGenerated | middleware/auth.js:14-24 | a live generated token of an existing user resolves to the stored record, whatever role the token names |
| AuthMiddleware.Exchange.constructor | middleware/auth.js:5-9 | a fresh request has no requester, no cleared cookie and empty view locals |
| AuthMiddleware.Exchange.AuthenticateToken | middleware/auth.js:5-31 | the request's user becomes the resolved requester and the cookie is cleared as resolution says; the request always continues |
| AuthMiddleware.Exchange.CheckAuth | middleware/auth.js:75-80 | the view locals hold the user; authenticated exactly when a user is present; admin exactly when that user is an administrator |
| AuthMiddleware.RequireAuth | middleware/auth.js:34-43 | the request continues exactly when a user is present; otherwise the login is required |
| AuthMiddleware.RequireRole | middleware/auth.js:46-69 | anonymous first gets the login; a signed-in user passes exactly when the list is empty or holds their role; otherwise 403 |
| AuthMiddleware.RequireAdmin | middleware/auth.js:72 | only a signed-in administrator passes; anyone else signed in gets 403 |
| AuthMiddleware.RedirectIfAuthenticated | middleware/auth.js:83-89 | anonymous continues; a signed-in user is redirected to `?redirect`, or to `/articles` when that is absent |
| AuthController.NewUser | controllers/authController.js:78-88 | a new user has the selected role, no articles, the digested password and bio defaulting to `''` |
| AuthController.RegisterOutcome | controllers/authController.js:26-124 | checks run in order: an invalid account type first, then the three-administrator cap, which echoes the form with role `user`, then duplicates (`AlreadyExists` exactly when the earlier checks pass and the address or username is taken), then the save (`RegistrationFailed` exactly when it refuses a fresh account); success issues a verifying token for (id, role), the seven-day cookie and the role's landing page |
| AuthController.Taken | controllers/authController.js:60-62 | a form with neither address nor username finds nobody; a form with both that finds nobody shares neither with any user, which is what keeps accounts unique on insert |
| AuthController.RegisterKeepsAdminCap | controllers/authController.js:43-57 | a successful registration never takes the administrators past three |
| AuthController.Register | controllers/authController.js:26-124 | success adds exactly the new user under a fresh id; every other outcome changes nothing; the invariant is kept |
| AuthController.FindByEmail | controllers/authController.js:132 | a found account has the given address; a missing address finds nobody; a miss means no user below the counter has the address |
| AuthController.Login | controllers/authController.js:127-209 | unknown address and wrong password give the same failure; the login succeeds exactly when some account has the address and the password and, if a role is expected, that role; a role mismatch reports that account's role; success issues the token of the stored id and role, the cookie, and `?redirect` or the role's landing page |
| AuthController.LoginTokenVerifies | controllers/authController.js:175-176 | the cookie from a successful login signs in the same user with the stored role until it expires |
| AuthController.RegisteredLogsIn | controllers/authController.js:78-184 | an account stored by registration signs in with the address and password it was registered with, as that account and with its role |
| AuthRoutes.LogoutSignsOut | controllers/authController.js:212-220 | after logout the next request carries no cookie and so is anonymous; the redirect reaches the login form, whose guard admits it, and every `requireAuth` page asks for a login again |
| AuthController.GetCurrentUser | controllers/authController.js:223-238 | anonymous gets 401; otherwise the stored record without its password |
| AuthController.ApplyProfile | controllers/authController.js:243-247 | only first name, last name and bio change, each only when supplied |
| AuthController.UpdateProfile | controllers/authController.js:241-273 | a requester with a record gets exactly the profile fields replaced when the validators accept them; otherwise nothing changes; the invariant is kept |
| Query.MatchingIds | controllers/articleController.js:16-38 | the counted set holds exactly the stored ids whose article matches the filter |
| Query.Collect | controllers/articleController.js:31 | `find` returns exactly the matching stored articles, once each |
| Query.SortArticles | controllers/articleController.js:34 | the result is sorted by the order and is a permutation of its input |
| Query.Window | controllers/articleController.js:35-36 | `skip`/`limit` keep, in order, the elements from position `skip` on, at most as many as the limit's magnitude |
| Query.SortedFind | controllers/articleController.js:31-38 | the sorted result of a query is sorted, counts the matches, holds only stored matching articles, and holds every one of them |
| ArticleController.ParsedOr | controllers/articleController.js:10-11 | a missing, non-numeric or zero parameter gives the default; otherwise the number |
| ArticleController.Paginate | controllers/articleController.js:12-56 | a negative skip fails the query; otherwise the page is the window at (page-1)·limit, total pages is ceil(total/limit), `hasNextPage` holds exactly when page < total pages and `hasPrevPage` exactly when page > 1 |
| ArticleController.PageFilledIffWithinTotal | controllers/articleController.js:12-39 | for positive page and limit, a page is non-empty exactly when it is at most the number of pages |
| ArticleController.HasNextMeansMore | controllers/articleController.js:53 | `hasNextPage` holds exactly when the next page has articles |
| ArticleController.PageOfSorted | controllers/articleController.js:31-39 | a page of a sorted result is sorted, comes from the result and counts all of it |
| ArticleController.ListedPage | controllers/articleController.js:31-39 | a page of `find(filter).sort(order)` is the window at (page-1)·limit of the sorted matches, is sorted, holds stored articles the filter selects, and its total counts every match, with ceil(total/limit) pages |
| ArticleController.PublicFilter | controllers/articleController.js:16-28 | the public filter always requires `published` |
| ArticleController.PublicFilterMeaning | controllers/articleController.js:16-28 | an article matches exactly when it is published, is in the category when one other than `all` is given, is by the author when one is given, and matches the text when a search is given |
| ArticleController.GetAllArticles | controllers/articleController.js:8-81 | a negative skip fails; otherwise the page is the window at (page-1)·limit of the matches sorted by publish date then creation date, newest first, with the page number, ceil(total/limit) pages and both neighbour flags; every article on it is stored and published; the total counts the matches |
| ArticleController.PublicPage | controllers/articleController.js:16-39 | the public listing's page is the window of the sorted matches and holds only published, stored articles that the filter selects, with the total of all matches and the page count |
| ArticleController.OwnFilter | controllers/articleController.js:91-95 | the filter always names the requester as author |
| ArticleController.OwnFilterMeaning | controllers/articleController.js:91-95 | an article matches exactly when it is the requester's and has the status asked for, unless that is missing or `all` |
| ArticleController.GetUserArticles | controllers/articleController.js:84-141 | a negative skip fails; otherwise the page is the window at (page-1)·limit of the requester's matches, newest created first, with the page number, ceil(total/limit) pages and both neighbour flags; it holds only the requester's stored articles with the status asked for, and the total counts them |
| ArticleController.OwnPage | controllers/articleController.js:91-105 | the author's listing's page is the window of their sorted matches and holds only their stored articles in the status asked for, newest created first, with the page count |
| ArticleController.GetArticle | controllers/articleController.js:144-202 | unknown id gives 404; an unpublished article for anyone but its author or an administrator gives 403; otherwise the article as read; views go up by exactly one only for a published article that is returned, and nothing else changes |
| ArticleController.CanView | controllers/articleController.js:168-170 | a published article is readable by anyone; an anonymous requester reads exactly the published ones; administrators and the author read every one |
| ArticleController.ParseTags | controllers/articleController.js:214 | a missing or empty value gives no tags; otherwise one trimmed piece per comma-separated piece, none containing a comma |
| ArticleController.ImagePath | controllers/articleController.js:221 | an uploaded image's path lies in `/uploads/articles/`, passes the clean-up's `startsWith('/uploads/')` test and ends in the uploaded file's name |
| ArticleController.CreateFields | controllers/articleController.js:209-217 | category defaults to `Other`, a missing or empty status to `draft`, and tags are parsed |
| ArticleController.CreatedArticle | controllers/articleController.js:205-225 | rejected exactly when the schema refuses the fields, with the schema's error; otherwise an article with the fresh id and the requester as author |
| ArticleController.CreatedStored | controllers/articleController.js:205-225 | every article the handler builds satisfies the stored-article invariant |
| ArticleController.CreatedArticleMeaning | controllers/articleController.js:205-225 | a built article has zero views, no likes or comments, both dates now, the trimmed title, the content, the parsed and trimmed tags, status default `draft`, the uploaded image or none, the read time of its content, the given or derived summary, and a publish date exactly when published |
| ArticleController.UpdateFields | controllers/articleController.js:310-315 | the old status is kept when none is supplied and the tags are parsed afresh |
| ArticleController.UpdatedArticle | controllers/articleController.js:305-330 | rejected exactly when the schema refuses the fields, with the schema's error; otherwise id and author stay |
| ArticleController.UpdatedStored | controllers/articleController.js:305-330 | an update of a stored article yields a stored article |
| ArticleController.UpdatedArticleMeaning | controllers/articleController.js:305-330 | views, likes, comments and creation date stay; title, content, category and status are the form's, the status kept when none is sent; the image is replaced only with an upload; the read time changes only with the content; an existing publish date stays and a first publication is stamped now; the tags are the re-parsed form field; a non-empty summary sent is kept, and a missing or empty one is derived again from the new content |
| ArticleController.CreateArticle | controllers/articleController.js:205-275 | a refused form changes nothing; a saved article takes the next id, is stored as built and is appended to the author's list; the invariant is kept |
| ArticleController.UpdateArticle | controllers/articleController.js:278-375 | 404 before 403; a non-admin changes nothing; an administrator's accepted update replaces exactly that article |
| ArticleController.DeleteArticle | controllers/articleController.js:378-432 | 404 before 403; a non-admin changes nothing; otherwise the article's comments, its entry in the author's list and the article are removed, and the invariant is kept |
| ArticleController.DeletionLeavesNoReference | controllers/articleController.js:406-414 | after the cascade, no user lists the deleted article |
| Routing.DispatchFrom | routes/articles.js:12-89 | the first route from a position on that serves the request, or none |
| Routing.Dispatch | routes/articles.js:12-89 | Express picks the first declared route that serves the request; no route means 404 |
| Routing.RunGuards | routes/articles.js:36 | the handler runs exactly when every guard passes the request on; otherwise the first guard that stops it decides |
| Routing.SingleGuard | routes/auth.js:35 | a one-guard chain decides as that guard does |
| Routing.AdminFirstStopsOthers | routes/articles.js:36 | a chain that starts with `requireAdmin` runs no later step for anyone but an administrator |
| ArticleRoutes.ArticleDispatch | routes/articles.js:12-89 | each path reaches the handler its shape names; `/my` and `/new` win over `/:id`; and `/:id/edit` and `/:id/delete` are matched by verb |
| ArticleRoutes.ViewReachedIff | routes/articles.js:15-18 | a one-segment GET reaches the single-article view exactly when the segment is neither `my` nor `new` |
| ArticleRoutes.ArticleGuards | routes/articles.js:12-89 | only the list and view routes are unguarded; every other route starts with `requireAdmin` |
| ArticleRoutes.NonAdminNeverUploads | routes/articles.js:36 | on create and update, a request from anyone but an administrator never reaches the upload |
| ArticleRoutes.Submitted | routes/articles.js:21-29 | the form posts each of its fields as given |
| ArticleRoutes.BlankNewFormRejected | routes/articles.js:21-29 | the new form's defaults all empty but status `draft`, posted unchanged, are refused for the missing title |
| ArticleRoutes.EditFormData | routes/articles.js:61-69 | the edit form copies the article's fields, names its category and status so that they parse back, and joins its tags with `', '` so that plain tags parse back |
| ArticleRoutes.TagsRoundTrip | routes/articles.js:66 | tags that are trimmed, non-empty and comma-free, joined with `', '` and re-parsed by the update, give back the same tags |
| ArticleRoutes.NormalizedFieldSaved | routes/articles.js:66 | a tag field normalised by the browser is saved as the browser's tag list |
| ArticleRoutes.LoneEmptyTagLost | routes/articles.js:66 | the stored tag list `[""]` is joined to the empty field, which parses to no tags |
| ArticleRoutes.EditForm | routes/articles.js:39-80 | a missing article gives 404 before the role check; a non-admin gets 403; otherwise the edit form of the article |
| ArticleRoutes.EditFormNeverForbiddenBehindGuard | routes/articles.js:39-57 | behind `requireAdmin`, the handler's own 403 is never reached |
| ArticleRoutes.ResubmittedEditKeepsArticle | routes/articles.js:61-69 | posting the edit form back unchanged saves the same article with only its update date changed |
| AuthRoutes.AuthDispatch | routes/auth.js:11-65 | each path reaches its handler; logout is served on both GET and POST |
| AuthRoutes.AuthGuards | routes/auth.js:11-65 | the login and register routes run `redirectIfAuthenticated`; logout runs no guard; profile and `/api/user` run `requireAuth` |
| AuthRoutes.AuthTableGuards | routes/auth.js:11-65 | the table puts `redirectIfAuthenticated` on the login and register routes, nothing on logout and `requireAuth` on the rest |
| AuthRoutes.SignedInNeverSeesForms | routes/auth.js:11-35 | a signed-in user who asks for the login or register form is redirected to `?redirect` or `/articles` |
| AuthRoutes.SubmittedRegistration | routes/auth.js:24-31 | the register form posts each of its fields as given |
| AuthRoutes.BlankRegistrationRejected | routes/auth.js:24-31 | the register form's empty role, posted unchanged, is refused as an invalid account type |
| AuthRoutes.ProfilePage | routes/auth.js:42-60 | the profile page shows the requester's stored record without its password, as `/api/user` does |
| AuthRoutes.ResolvedRequesterHasProfile | routes/auth.js:42-60 | a requester resolved from the cookie always finds their own profile |
| ArticleRoutes.HomeReachable | controllers/authController.js:180-184 | the landing page by role is an administrator's own list or the public list; a route serves it and its guards admit that user |
| UserRoutes.UserDispatch | routes/users.js:10-47 | `profile` and `admin` win over `:id`; only one-segment GETs are served |
| UserRoutes.UserGuards | routes/users.js:10-47 | the dashboard runs `requireAdmin`; the other two routes run `requireAuth` |
| UserRoutes.IdsWithStatus | routes/users.js:28-29 | the set holds exactly the ids of the articles in that status |
| UserRoutes.DashboardStats | routes/users.js:25-30 | the stats count all users, all articles, and the published and the draft articles |
| UserRoutes.StatsAddUp | routes/users.js:25-30 | published + draft + archived equals the total, so published + draft is at most the total |
| UserRoutes.StatusPartition | routes/users.js:28-29 | the three status classes are disjoint and cover every article |
| UserRoutes.DashboardArticles | routes/users.js:21-23 | the dashboard lists every stored article once, newest created first |
| UserRoutes.LatestPublishedMeaning | routes/users.js:71-73 | the list holds at most ten of the user's published articles as stored, newest publication first, and none left out is newer than one shown |
| UserRoutes.LatestPublished | routes/users.js:71-73 | `limit(10)`: the list holds at most ten articles |
| UserRoutes.PublishedByMeaning | routes/users.js:71 | the user page's filter selects exactly that user's published articles |
| UserRoutes.UserDetailPage | routes/users.js:47-87 | an unknown user gives 404 before the permission check; only the user themself or an administrator may look; `isOwnProfile` holds exactly when the requester is the user |
| UserRoutes.TopOfSorted | routes/users.js:72-73 | the first n of a sorted list are sorted, and everything cut off comes after every one of them |
| ClientHelpers.IsValidEmailIff | public/js/main.js:141-144 | the regex holds exactly when the string has no white space and exactly one `@`, with something before it and a `.` strictly inside the part after it |
| ClientHelpers.RegexGivesShape | public/js/main.js:141-144 | a string the regex accepts has that shape |
| ClientHelpers.ShapeGivesRegex | public/js/main.js:141-144 | a string of that shape is accepted by the regex |
| ClientHelpers.ValidateForm | public/js/main.js:85-117 | the form is valid exactly when no required field is blank after trimming, no non-empty e-mail field fails the e-mail check, and no non-empty password field is shorter than 6 |
| ClientHelpers.TagList | public/js/main.js:175 | the tags are trimmed, non-empty and comma-free, and they are exactly the non-empty trimmed comma pieces |
| ClientHelpers.NormalizedKeepsTags | public/js/main.js:172-177 | normalising keeps the tag list, and a non-empty normalised value has no empty piece |
| ClientHelpers.NormalizeIdempotent | public/js/main.js:172-177 | normalising twice gives the same value as normalising once |
| ClientHelpers.EnterSuffix | public/js/main.js:180-188 | Enter appends `', '` to the trimmed value only when it is non-empty and does not end with `,`; otherwise the value is unchanged |
| ClientHelpers.EnterIdempotent | public/js/main.js:180-188 | pressing Enter twice gives the same value as pressing it once |
| ClientHelpers.TagInput.constructor | public/js/main.js:171 | the field holds its initial value |
| ClientHelpers.TagInput.OnInput | public/js/main.js:172-178 | a value containing a comma becomes its normalised form; any other value stays |
| ClientHelpers.TagInput.OnKeyDown | public/js/main.js:180-188 | Enter applies the suffix rule; any other key leaves the value |
| ClientHelpers.InputSettles | public/js/main.js:172-178 | a second input event after normalisation changes nothing |
| ClientHelpers.CharacterCounter.constructor | public/js/main.js:147-168 | a counter is built only for a non-zero maxlength; it starts with remaining = maxLength − length and warns exactly when remaining < 20 |
| ClientHelpers.CharacterCounter.Update | public/js/main.js:159-165 | each input sets remaining = maxLength − length and warns exactly when remaining < 20 |
| ClientHelpers.HasCounter | public/js/main.js:148-149 | a missing, non-numeric or zero `maxlength` gives no counter; a negative one still gives one |
| ClientHelpers.AddCharacterCounter | public/js/main.js:147-168 | a counter is created exactly when the field has one by `HasCounter`; it is new and shows maxlength − length, with the warning below 20 |

## Left out

- Rendering and the HTML/JSON choice are collapsed to one outcome per path. Error messages and the `encodeURIComponent` of redirect URLs are not modelled.
- JWT signing uses an abstract token. The model keeps its payload and its seven-day lifetime at one-second resolution. The secret and the cryptography are not modelled.
- bcrypt hashing is an abstract digest. Equal digests stand for a matching password.
- models/User.js is not part of this model. Its validators are the parameter `accepts` of `RegisterOutcome` and `UpdateProfile`. Username, e-mail and password are taken to be required fields.
- MongoDB's `$text` search is the uninterpreted parameter `textMatch`.
- `populate`, `distinct('category')` and indexes are not modelled. `populate` replaces ids by documents for display only.
- The dashboard's user list, sorted by user creation date, is not modelled. Users carry no creation date here.
- The profile page's populated article list is not modelled.
- The login page's empty `formData` is not modelled, because it is only rendered.
- A malformed ObjectId makes Mongoose throw a cast error, which gives a 500. Identifiers here are natural numbers, so that path is not modelled.
- Database and network failures are not modelled, apart from the negative `skip` that makes a listing fail. Neither are the 500 answers of the `catch` blocks.
- `fs.unlink` of a replaced or deleted image is not modelled. It is best-effort and only logs failures. The image path field is modelled.
- The image upload middleware always passes the request on. Its own failures are not modelled.
- `Date.now()` is the parameter `now`.
- The model is sequential. The race between the admin count and the insert is not modelled.
- Express route matching here is case-sensitive and has no trailing-slash handling. Each path is split at `/` below its router's mount point.
- String length is a count of `char`s, not of UTF-16 code units. JavaScript's `\s` class and `trim` are the set `Text.IsSpace`.
- `parseInt` is an `Option<int>`, where `None` stands for NaN.
- The browser script's DOM work is not modelled. Neither are its error-message elements, timers, animations, clipboard or share windows.
- Mongo's order among sort ties is unspecified. The model uses a stable insertion sort, and the contracts state only sortedness and permutation.
- ArticleController.UpdatedStored: requires the old article to satisfy the stored-article invariant, which the database invariant gives every stored article. An article updated outside the database is not covered.
- ArticleRoutes.ResubmittedEditKeepsArticle: requires a non-empty summary and tags that are non-empty and comma-free. An empty summary would be re-derived on save. Tags that break the condition do not survive the join.
- ArticleRoutes.LoneEmptyTagLost: states an edge of the edit form's join rather than a guarantee. The stored tag list `[""]` reaches the form as an empty field and is saved back as no tags.
- AuthController.Login: yields only the outcome and the token. The JSON body's user fields are not modelled.
- ClientHelpers.ValidateForm: states only the validity verdict. Which fields are marked with which message is not modelled.
