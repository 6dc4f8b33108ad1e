/**
 * The three collections the handlers read and write (users, articles,
 * comments), held as maps from identifier to record, with the invariant that
 * every handler of the model keeps.
 */
module Store {
  import opened Wrappers
  import opened Base
  import opened Session
  import opened ArticleModel
  import opened CommentModel

  /**
   * The stored password digest. The hashing of models/User.js is not part of this
   * model; it is treated as injective, so a digest matches exactly its own password.
   */
  datatype Digest = Digest(secret: string)

  function HashPassword(password: string): Digest {
    Digest(password)
  }

  /** `user.comparePassword(candidate)`: an absent candidate matches no digest. */
  predicate ComparePassword(stored: Digest, candidate: Option<string>)
    ensures candidate.None? ==> !ComparePassword(stored, candidate)
  {
    candidate.Some? && HashPassword(candidate.value) == stored
  }

  /** The digest of a password is matched by that password and by no other candidate. */
  lemma PasswordMatchesIff(password: string, candidate: Option<string>)
    ensures ComparePassword(HashPassword(password), candidate) <==> candidate == Some(password)
  {
  }

  /** The fields of a User document the handlers read or write. */
  datatype User = User(
    id: Id,
    username: string,
    email: string,
    password: Digest,
    firstName: Option<string>,
    lastName: Option<string>,
    bio: string,
    role: Role,
    articles: seq<Id>)

  /** A user as the handlers show it (`select('-password')`): every field but the digest. */
  datatype PublicProfile = PublicProfile(
    id: Id,
    username: string,
    email: string,
    firstName: Option<string>,
    lastName: Option<string>,
    bio: string,
    role: Role,
    articles: seq<Id>)

  function Public(u: User): (p: PublicProfile)
    ensures p.id == u.id && p.username == u.username && p.email == u.email && p.role == u.role
    ensures p.firstName == u.firstName && p.lastName == u.lastName && p.bio == u.bio && p.articles == u.articles
  {
    PublicProfile(u.id, u.username, u.email, u.firstName, u.lastName, u.bio, u.role, u.articles)
  }

  /** The public view forgets the digest and nothing else: two users look alike exactly when they differ at most in the password. */
  lemma PublicForgetsOnlyPassword(u: User, v: User)
    ensures Public(u) == Public(v) <==> u.(password := v.password) == v
  {
  }

  /** The most administrators registration allows. */
  const MaxAdmins := 3

  /** The identifiers of the administrators. */
  function AdminIds(users: map<Id, User>): (r: set<Id>)
    ensures forall id :: id in r <==> id in users && users[id].role == Admin
  {
    set id | id in users && users[id].role == Admin
  }

  /** `User.countDocuments({ role: 'admin' })`. */
  function AdminCount(users: map<Id, User>): nat {
    |AdminIds(users)|
  }

  /** Adding a user raises the administrator count by one exactly when it is an administrator. */
  lemma {:induction false} AdminCountInsert(users: map<Id, User>, id: Id, u: User)
    requires id !in users
    ensures AdminCount(users[id := u]) == AdminCount(users) + (if u.role == Admin then 1 else 0)
  {
    if u.role == Admin {
      assert AdminIds(users[id := u]) == AdminIds(users) + {id};
    } else {
      assert AdminIds(users[id := u]) == AdminIds(users);
    }
  }

  /** Replacing a user by one with the same role keeps the administrator count. */
  lemma {:induction false} AdminCountUpdate(users: map<Id, User>, id: Id, u: User)
    requires id in users && users[id].role == u.role
    ensures AdminCount(users[id := u]) == AdminCount(users)
  {
    assert AdminIds(users[id := u]) == AdminIds(users);
  }

  /** No two users share an e-mail address or a username. */
  predicate UniqueAccounts(users: map<Id, User>) {
    forall i, j :: i in users && j in users && i != j ==>
      users[i].email != users[j].email && users[i].username != users[j].username
  }

  /** Every article a user lists exists and names that user as its author. */
  predicate ListedExist(users: map<Id, User>, articles: map<Id, Article>) {
    forall u, a :: u in users && a in users[u].articles ==> a in articles && articles[a].author == u
  }

  /** Every article's author exists and lists it. */
  predicate AuthorsList(users: map<Id, User>, articles: map<Id, Article>) {
    forall a :: a in articles ==> articles[a].author in users && a in users[articles[a].author].articles
  }

  /** The author's `articles` list and each article's `author` agree, both ways. */
  predicate BackReferences(users: map<Id, User>, articles: map<Id, Article>) {
    ListedExist(users, articles) && AuthorsList(users, articles)
  }

  /** `$pull`: the list without any occurrence of `x`. */
  function Without(s: seq<Id>, x: Id): (r: seq<Id>)
    ensures x !in r
    ensures forall y :: y in r <==> y in s && y != x
    ensures |r| <= |s|
  {
    if s == [] then []
    else if s[0] == x then Without(s[1..], x)
    else [s[0]] + Without(s[1..], x)
  }

  predicate UsersKeyed(users: map<Id, User>, next: nat) {
    forall id :: id in users ==> id < next && users[id].id == id
  }

  predicate ArticlesKeyed(articles: map<Id, Article>, next: nat) {
    forall id :: id in articles ==> id < next && articles[id].id == id
  }

  predicate CommentsKeyed(comments: map<Id, Comment>, next: nat) {
    forall id :: id in comments ==> id < next && comments[id].id == id
  }

  /** A stored article satisfies the schema and, once published, has a publication date. */
  predicate StoredArticle(a: Article) {
    WellFormed(a) && (a.status == Published ==> a.publishedAt.Some?)
  }

  predicate AllStored(articles: map<Id, Article>) {
    forall id {:trigger StoredArticle(articles[id])} :: id in articles ==> StoredArticle(articles[id])
  }

  /**
   * What every handler keeps: identifiers are keys and below `next`, stored
   * articles satisfy the schema and carry a publication date once published, at
   * most three administrators, unique accounts, consistent author references.
   */
  predicate Consistent(users: map<Id, User>, articles: map<Id, Article>, comments: map<Id, Comment>, next: nat) {
    && UsersKeyed(users, next)
    && ArticlesKeyed(articles, next)
    && CommentsKeyed(comments, next)
    && AllStored(articles)
    && AdminCount(users) <= MaxAdmins
    && UniqueAccounts(users)
    && BackReferences(users, articles)
  }

  /** Appends `id` to `author`'s article list (`$push`). */
  function PushArticle(users: map<Id, User>, author: Id, id: Id): (r: map<Id, User>)
    requires author in users
    ensures r.Keys == users.Keys && r[author].articles == users[author].articles + [id]
    ensures r[author] == users[author].(articles := r[author].articles)
    ensures forall u :: u in users && u != author ==> r[u] == users[u]
  {
    users[author := users[author].(articles := users[author].articles + [id])]
  }

  /** Removes `id` from `author`'s article list (`$pull`); an unknown author changes nothing. */
  function PullArticle(users: map<Id, User>, author: Id, id: Id): (r: map<Id, User>)
    ensures r.Keys == users.Keys
    ensures author in users ==> r[author] == users[author].(articles := Without(users[author].articles, id))
    ensures forall u :: u in users && u != author ==> r[u] == users[u]
  {
    if author in users then users[author := users[author].(articles := Without(users[author].articles, id))]
    else users
  }

  /** The comments that do not belong to article `id` (`Comment.deleteMany({ article: id })` keeps these). */
  function CommentsNotOn(comments: map<Id, Comment>, id: Id): (r: map<Id, Comment>)
    ensures forall c :: c in r <==> c in comments && comments[c].article != id
    ensures forall c :: c in r ==> r[c] == comments[c]
  {
    map c | c in comments && comments[c].article != id :: comments[c]
  }

  /** Changing only a user's profile fields or article list keeps accounts unique and keyed. */
  lemma {:induction false} ReplaceUserAccounts(users: map<Id, User>, next: nat, u: User)
    requires UsersKeyed(users, next) && UniqueAccounts(users) && AdminCount(users) <= MaxAdmins
    requires u.id in users
    requires u.email == users[u.id].email && u.username == users[u.id].username && u.role == users[u.id].role
    ensures UsersKeyed(users[u.id := u], next) && UniqueAccounts(users[u.id := u])
    ensures AdminCount(users[u.id := u]) <= MaxAdmins
  {
    AdminCountUpdate(users, u.id, u);
  }

  /** Replacing an article by one with the same identifier and author keeps the references. */
  lemma {:induction false} ReplaceArticleReferences(users: map<Id, User>, articles: map<Id, Article>, b: Article)
    requires BackReferences(users, articles)
    requires b.id in articles && articles[b.id].author == b.author
    ensures BackReferences(users, articles[b.id := b])
  {
    var articles' := articles[b.id := b];
    forall u, a | u in users && a in users[u].articles
      ensures a in articles' && articles'[a].author == u
    {
      assert a in articles && articles[a].author == u;
    }
    forall a | a in articles'
      ensures articles'[a].author in users && a in users[articles'[a].author].articles
    {
      assert articles'[a].author == articles[a].author;
    }
  }

  /** Replacing a stored article by one with the same identifier and author keeps the invariant. */
  lemma {:induction false} ReplaceArticleConsistent(users: map<Id, User>, articles: map<Id, Article>,
                                                    comments: map<Id, Comment>, next: nat, b: Article)
    requires Consistent(users, articles, comments, next)
    requires b.id in articles && articles[b.id].author == b.author && StoredArticle(b)
    ensures Consistent(users, articles[b.id := b], comments, next)
  {
    ReplaceArticleReferences(users, articles, b);
  }

  /** Listing a new article for its author keeps the references. */
  lemma {:induction false} InsertArticleReferences(users: map<Id, User>, articles: map<Id, Article>, b: Article)
    requires BackReferences(users, articles)
    requires b.id !in articles && b.author in users
    ensures BackReferences(PushArticle(users, b.author, b.id), articles[b.id := b])
  {
    var users' := PushArticle(users, b.author, b.id);
    var articles' := articles[b.id := b];
    forall u, a | u in users' && a in users'[u].articles
      ensures a in articles' && articles'[a].author == u
    {
      if a != b.id {
        assert a in users[u].articles;
      }
    }
    forall a | a in articles'
      ensures articles'[a].author in users' && a in users'[articles'[a].author].articles
    {
      if a != b.id {
        assert a in users[articles[a].author].articles;
      }
    }
  }

  /** Saving a new article under the next identifier and listing it for its author keeps the invariant. */
  lemma {:induction false} InsertArticleConsistent(users: map<Id, User>, articles: map<Id, Article>,
                                                   comments: map<Id, Comment>, next: nat, b: Article)
    requires Consistent(users, articles, comments, next)
    requires b.id == next && b.author in users && StoredArticle(b)
    ensures Consistent(PushArticle(users, b.author, b.id), articles[b.id := b], comments, next + 1)
  {
    var users' := PushArticle(users, b.author, b.id);
    assert users' == users[b.author := users'[b.author]];
    ReplaceUserAccounts(users, next, users'[b.author]);
    InsertArticleReferences(users, articles, b);
  }

  /** Removing an article and its entry in its author's list keeps the references. */
  lemma {:induction false} DeleteArticleReferences(users: map<Id, User>, articles: map<Id, Article>, id: Id)
    requires BackReferences(users, articles)
    requires id in articles
    ensures BackReferences(PullArticle(users, articles[id].author, id), articles - {id})
  {
    var author := articles[id].author;
    var users' := PullArticle(users, author, id);
    var articles' := articles - {id};
    forall u, a | u in users' && a in users'[u].articles
      ensures a in articles' && articles'[a].author == u
    {
      assert a in users[u].articles;
    }
    forall a | a in articles'
      ensures articles'[a].author in users' && a in users'[articles'[a].author].articles
    {
      assert a in users[articles[a].author].articles;
    }
  }

  /**
   * Removing an article, its comments and its entry in its author's list keeps
   * the invariant.
   */
  lemma {:induction false} DeleteArticleConsistent(users: map<Id, User>, articles: map<Id, Article>,
                                                   comments: map<Id, Comment>, next: nat, id: Id)
    requires Consistent(users, articles, comments, next)
    requires id in articles
    ensures Consistent(PullArticle(users, articles[id].author, id), articles - {id}, CommentsNotOn(comments, id), next)
  {
    var author := articles[id].author;
    var users' := PullArticle(users, author, id);
    assert users' == users[author := users'[author]];
    ReplaceUserAccounts(users, next, users'[author]);
    DeleteArticleReferences(users, articles, id);
  }

  /** A fresh user with a new address and username keeps accounts unique. */
  lemma {:induction false} InsertUserAccounts(users: map<Id, User>, u: User)
    requires UniqueAccounts(users) && u.id !in users
    requires forall j :: j in users ==> users[j].email != u.email && users[j].username != u.username
    ensures UniqueAccounts(users[u.id := u])
  {
  }

  /** A fresh user who lists no article keeps the references. */
  lemma {:induction false} InsertUserReferences(users: map<Id, User>, articles: map<Id, Article>, u: User)
    requires BackReferences(users, articles) && u.id !in users && u.articles == []
    ensures BackReferences(users[u.id := u], articles)
  {
    var users' := users[u.id := u];
    forall v, a | v in users' && a in users'[v].articles
      ensures a in articles && articles[a].author == v
    {
      assert v != u.id;
    }
  }

  /** Adding a fresh, unique user with no articles keeps the invariant while the admin cap holds. */
  lemma {:induction false} InsertUserConsistent(users: map<Id, User>, articles: map<Id, Article>,
                                                comments: map<Id, Comment>, next: nat, u: User)
    requires Consistent(users, articles, comments, next)
    requires u.id == next && u.articles == []
    requires forall j :: j in users ==> users[j].email != u.email && users[j].username != u.username
    requires AdminCount(users[u.id := u]) <= MaxAdmins
    ensures Consistent(users[u.id := u], articles, comments, next + 1)
  {
    InsertUserAccounts(users, u);
    InsertUserReferences(users, articles, u);
  }

  /** Replacing a user by one listing the same articles keeps the references. */
  lemma {:induction false} ReplaceUserReferences(users: map<Id, User>, articles: map<Id, Article>, u: User)
    requires BackReferences(users, articles)
    requires u.id in users && u.articles == users[u.id].articles
    ensures BackReferences(users[u.id := u], articles)
  {
    var users' := users[u.id := u];
    forall v, a | v in users' && a in users'[v].articles
      ensures a in articles && articles[a].author == v
    {
      assert a in users[v].articles;
    }
    forall a | a in articles
      ensures articles[a].author in users' && a in users'[articles[a].author].articles
    {
      assert a in users[articles[a].author].articles;
    }
  }

  /** Changing a user's profile fields only keeps the invariant. */
  lemma {:induction false} UpdateUserConsistent(users: map<Id, User>, articles: map<Id, Article>,
                                                comments: map<Id, Comment>, next: nat, u: User)
    requires Consistent(users, articles, comments, next)
    requires u.id in users && u == users[u.id].(firstName := u.firstName, lastName := u.lastName, bio := u.bio)
    ensures Consistent(users[u.id := u], articles, comments, next)
  {
    ReplaceUserAccounts(users, next, u);
    ReplaceUserReferences(users, articles, u);
  }

  /** The database: the collections and the source of fresh identifiers. */
  class Database {
    var users: map<Id, User>
    var articles: map<Id, Article>
    var comments: map<Id, Comment>
    var nextId: nat

    /**
     * What every handler keeps: identifiers are keys and below `nextId`, stored
     * articles satisfy the schema and carry a publication date once published, at
     * most three administrators, unique accounts, consistent author references.
     */
    ghost predicate Valid()
      reads this
    {
      Consistent(users, articles, comments, nextId)
    }

    /**
     * Saves a new article under the next identifier and pushes it onto its
     * author's list.
     */
    method InsertArticle(b: Article)
      requires Valid() && b.id == nextId && b.author in users && StoredArticle(b)
      modifies this
      ensures Valid()
      ensures articles == old(articles)[b.id := b] && users == PushArticle(old(users), b.author, b.id)
      ensures nextId == old(nextId) + 1 && comments == old(comments)
    {
      InsertArticleConsistent(users, articles, comments, nextId, b);
      users, articles, nextId := PushArticle(users, b.author, b.id), articles[b.id := b], nextId + 1;
    }

    /** Saves `b` in place of the stored article with its identifier and author. */
    method ReplaceArticle(b: Article)
      requires Valid() && b.id in articles && articles[b.id].author == b.author && StoredArticle(b)
      modifies this
      ensures Valid()
      ensures articles == old(articles)[b.id := b]
      ensures users == old(users) && comments == old(comments) && nextId == old(nextId)
    {
      ReplaceArticleConsistent(users, articles, comments, nextId, b);
      articles := articles[b.id := b];
    }

    /**
     * Deletes article `id`: its comments (`Comment.deleteMany`), its entry in its
     * author's list (`$pull`) and the article itself.
     */
    method RemoveArticle(id: Id)
      requires Valid() && id in articles
      modifies this
      ensures Valid()
      ensures articles == old(articles) - {id} && comments == CommentsNotOn(old(comments), id)
      ensures users == PullArticle(old(users), old(articles)[id].author, id) && nextId == old(nextId)
    {
      DeleteArticleConsistent(users, articles, comments, nextId, id);
      users, articles, comments := PullArticle(users, articles[id].author, id), articles - {id}, CommentsNotOn(comments, id);
    }

    /** Saves a new user, with no articles, under the next identifier. */
    method InsertUser(u: User)
      requires Valid() && u.id == nextId && u.articles == []
      requires forall j :: j in users ==> users[j].email != u.email && users[j].username != u.username
      requires AdminCount(users[u.id := u]) <= MaxAdmins
      modifies this
      ensures Valid()
      ensures users == old(users)[u.id := u] && nextId == old(nextId) + 1
      ensures articles == old(articles) && comments == old(comments)
    {
      InsertUserConsistent(users, articles, comments, nextId, u);
      users := users[u.id := u];
      nextId := nextId + 1;
    }

    /** Saves `u` in place of the stored user it differs from only in its profile fields. */
    method ReplaceUser(u: User)
      requires Valid() && u.id in users
      requires u == users[u.id].(firstName := u.firstName, lastName := u.lastName, bio := u.bio)
      modifies this
      ensures Valid()
      ensures users == old(users)[u.id := u]
      ensures articles == old(articles) && comments == old(comments) && nextId == old(nextId)
    {
      UpdateUserConsistent(users, articles, comments, nextId, u);
      users := users[u.id := u];
    }

    /** An empty database. */
    constructor ()
      ensures Valid()
      ensures users == map[] && articles == map[] && comments == map[] && nextId == 0
    {
      users := map[];
      articles := map[];
      comments := map[];
      nextId := 0;
      new;
      assert AdminIds(users) == {};
    }
  }

  /**
   * `findOne({ email })` over the users with identifiers below `n`: the first
   * (earliest created) user with that address.
   */
  function FirstWithEmail(users: map<Id, User>, email: string, n: nat): (r: Option<Id>)
    ensures r.Some? ==> r.value < n && r.value in users && users[r.value].email == email
    ensures r.Some? ==> forall j :: j < r.value && j in users ==> users[j].email != email
    ensures r.None? ==> forall j :: j < n && j in users ==> users[j].email != email
    decreases n
  {
    if n == 0 then None
    else
      match FirstWithEmail(users, email, n - 1)
      case Some(i) => Some(i)
      case None => if n - 1 in users && users[n - 1].email == email then Some(n - 1) else None
  }

  /** With unique accounts, the lookup by e-mail finds the one user with that address. */
  lemma FirstWithEmailUnique(users: map<Id, User>, email: string, n: nat, id: Id)
    requires UniqueAccounts(users)
    requires id in users && id < n && users[id].email == email
    ensures FirstWithEmail(users, email, n) == Some(id)
  {
    var r := FirstWithEmail(users, email, n);
    assert r.Some?;
    assert users[r.value].email == users[id].email;
  }
}
