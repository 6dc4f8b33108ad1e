/**
 * The MongoDB query operations the handlers chain on the article collection:
 * `find(filter)`, `countDocuments(filter)`, `sort`, `skip` and `limit`.
 */
module Query {
  import opened Wrappers
  import opened Base
  import opened ArticleModel

  /**
   * An article filter: each present field must hold. `search` is a `$text`
   * query; the text index is not part of this model, so whether a search
   * matches an article is the caller-supplied `textMatch`.
   */
  datatype Filter = Filter(status: Option<string>, category: Option<string>, author: Option<Id>, search: Option<string>)

  predicate Matches(f: Filter, textMatch: (string, Article) -> bool, a: Article) {
    && (f.status.Some? ==> StatusName(a.status) == f.status.value)
    && (f.category.Some? ==> CategoryName(a.category) == f.category.value)
    && (f.author.Some? ==> a.author == f.author.value)
    && (f.search.Some? ==> textMatch(f.search.value, a))
  }

  /** The identifiers of the articles a filter selects. */
  function MatchingIds(m: map<Id, Article>, f: Filter, textMatch: (string, Article) -> bool, n: nat): (r: set<Id>)
    ensures forall id :: id in r <==> id < n && id in m && Matches(f, textMatch, m[id])
  {
    set id | id in m && id < n && Matches(f, textMatch, m[id])
  }

  /**
   * `find(filter)` over the identifiers below `n`, in identifier (insertion)
   * order: exactly the matching stored articles, each once.
   */
  function Collect(m: map<Id, Article>, f: Filter, textMatch: (string, Article) -> bool, n: nat): (r: seq<Article>)
    requires forall id :: id in m ==> m[id].id == id
    ensures forall k :: 0 <= k < |r| ==> r[k].id < n && r[k].id in m && m[r[k].id] == r[k] && Matches(f, textMatch, r[k])
    ensures forall id :: id < n && id in m && Matches(f, textMatch, m[id]) ==> m[id] in r
    ensures forall i, j :: 0 <= i < j < |r| ==> r[i].id < r[j].id
    decreases n
  {
    if n == 0 then []
    else
      var r := Collect(m, f, textMatch, n - 1);
      if n - 1 in m && Matches(f, textMatch, m[n - 1]) then r + [m[n - 1]] else r
  }

  /** `countDocuments(filter)` is the number of articles `find(filter)` returns. */
  lemma {:induction false} CollectCount(m: map<Id, Article>, f: Filter, textMatch: (string, Article) -> bool, n: nat)
    requires forall id :: id in m ==> m[id].id == id
    ensures |Collect(m, f, textMatch, n)| == |MatchingIds(m, f, textMatch, n)|
    decreases n
  {
    if n > 0 {
      CollectCount(m, f, textMatch, n - 1);
      MatchingStep(m, f, textMatch, n);
      CollectStep(m, f, textMatch, n);
      var prev := MatchingIds(m, f, textMatch, n - 1);
      if n - 1 in m && Matches(f, textMatch, m[n - 1]) {
        assert |prev + {n - 1}| == |prev| + 1;
      }
    }
  }

  /** Raising the bound by one appends the article below it exactly when that one matches. */
  lemma CollectStep(m: map<Id, Article>, f: Filter, textMatch: (string, Article) -> bool, n: nat)
    requires n > 0 && forall id :: id in m ==> m[id].id == id
    ensures |Collect(m, f, textMatch, n)| ==
              |Collect(m, f, textMatch, n - 1)| + (if n - 1 in m && Matches(f, textMatch, m[n - 1]) then 1 else 0)
  {
  }

  /** Raising the bound by one adds the identifier below it exactly when that one matches. */
  lemma MatchingStep(m: map<Id, Article>, f: Filter, textMatch: (string, Article) -> bool, n: nat)
    requires n > 0
    ensures n - 1 !in MatchingIds(m, f, textMatch, n - 1)
    ensures MatchingIds(m, f, textMatch, n) ==
              MatchingIds(m, f, textMatch, n - 1) + (if n - 1 in m && Matches(f, textMatch, m[n - 1]) then {n - 1} else {})
  {
  }

  /** The three sort specifications the handlers use, all descending. */
  datatype Order =
    | ByPublishedThenCreated  // { publishedAt: -1, createdAt: -1 }
    | ByCreated               // { createdAt: -1 }
    | ByPublished             // { publishedAt: -1 }

  /** Where `publishedAt` places an article; a missing date sorts below every date. */
  function PublishedRank(a: Article): int {
    match a.publishedAt
    case None => -1
    case Some(t) => t
  }

  /** `a` may come before `b` in the order. */
  predicate Before(o: Order, a: Article, b: Article) {
    match o
    case ByPublishedThenCreated =>
      PublishedRank(a) > PublishedRank(b) || (PublishedRank(a) == PublishedRank(b) && a.createdAt >= b.createdAt)
    case ByCreated => a.createdAt >= b.createdAt
    case ByPublished => PublishedRank(a) >= PublishedRank(b)
  }

  predicate SortedBy(o: Order, s: seq<Article>) {
    forall i, j :: 0 <= i < j < |s| ==> Before(o, s[i], s[j])
  }

  /** Any two articles are comparable: the order is total. */
  lemma BeforeTotal(o: Order, a: Article, b: Article)
    ensures Before(o, a, b) || Before(o, b, a)
  {
  }

  lemma BeforeTransitive(o: Order, a: Article, b: Article, c: Article)
    requires Before(o, a, b) && Before(o, b, c)
    ensures Before(o, a, c)
  {
  }

  /** Something that may precede every element of a sorted sequence may lead it. */
  lemma {:induction false} SortedCons(o: Order, x: Article, s: seq<Article>)
    requires SortedBy(o, s)
    requires forall k :: 0 <= k < |s| ==> Before(o, x, s[k])
    ensures SortedBy(o, [x] + s)
  {
    var r := [x] + s;
    forall i, j | 0 <= i < j < |r|
      ensures Before(o, r[i], r[j])
    {
      assert r[j] == s[j - 1];
      if i > 0 {
        assert r[i] == s[i - 1];
      }
    }
  }

  /** Whatever may precede the head of a sorted sequence may precede all of it. */
  lemma {:induction false} LeadsAll(o: Order, x: Article, s: seq<Article>)
    requires SortedBy(o, s) && s != [] && Before(o, x, s[0])
    ensures forall k :: 0 <= k < |s| ==> Before(o, x, s[k])
  {
    forall k | 0 < k < |s|
      ensures Before(o, x, s[k])
    {
      BeforeTransitive(o, x, s[0], s[k]);
    }
  }

  /** What may precede every element of `t` and `x` may precede every element of a permutation of `t` plus `x`. */
  lemma {:induction false} LeadsPermutation(o: Order, h: Article, x: Article, t: seq<Article>, r: seq<Article>)
    requires multiset(r) == multiset(t) + multiset{x}
    requires Before(o, h, x) && forall k :: 0 <= k < |t| ==> Before(o, h, t[k])
    ensures forall k :: 0 <= k < |r| ==> Before(o, h, r[k])
  {
    forall k | 0 <= k < |r|
      ensures Before(o, h, r[k])
    {
      assert r[k] in multiset(r);
      if r[k] != x {
        assert r[k] in multiset(t);
        var j :| 0 <= j < |t| && t[j] == r[k];
      }
    }
  }

  /** Inserts `x` into a sorted sequence, keeping it sorted. */
  function Insert(o: Order, x: Article, s: seq<Article>): (r: seq<Article>)
    requires SortedBy(o, s)
    ensures SortedBy(o, r)
    ensures multiset(r) == multiset(s) + multiset{x}
    decreases |s|
  {
    if s == [] then [x]
    else if Before(o, x, s[0]) then
      LeadsAll(o, x, s);
      SortedCons(o, x, s);
      [x] + s
    else
      assert s == [s[0]] + s[1..];
      var rest := Insert(o, x, s[1..]);
      BeforeTotal(o, x, s[0]);
      LeadsPermutation(o, s[0], x, s[1..], rest);
      SortedCons(o, s[0], rest);
      [s[0]] + rest
  }

  /**
   * `sort(order)`: a sorted rearrangement of its input. MongoDB leaves the
   * relative order of ties open, so sorted and a permutation is all that holds.
   */
  function SortArticles(o: Order, s: seq<Article>): (r: seq<Article>)
    ensures SortedBy(o, r)
    ensures multiset(r) == multiset(s)
    decreases |s|
  {
    if s == [] then []
    else
      assert s == [s[0]] + s[1..];
      Insert(o, s[0], SortArticles(o, s[1..]))
  }

  /**
   * `skip(skip).limit(limit)` for a skip MongoDB accepts: the articles from
   * position `skip` on, at most `|limit|` of them (a negative limit counts as its
   * magnitude, and the handlers never pass 0).
   */
  function Window(s: seq<Article>, skip: nat, limit: int): (r: seq<Article>)
    requires limit != 0
    ensures skip >= |s| ==> r == []
    ensures skip < |s| ==> |r| == Min(|s| - skip, if limit < 0 then -limit else limit)
    ensures forall k :: 0 <= k < |r| ==> r[k] == s[skip + k]
  {
    var count := if limit < 0 then -limit else limit;
    if skip >= |s| then [] else s[skip..skip + Min(|s| - skip, count)]
  }

  /** A window of a sorted sequence is sorted. */
  lemma WindowSorted(o: Order, s: seq<Article>, skip: nat, limit: int)
    requires limit != 0 && SortedBy(o, s)
    ensures SortedBy(o, Window(s, skip, limit))
  {
    var r := Window(s, skip, limit);
    assert forall i, j :: 0 <= i < j < |r| ==> r[i] == s[skip + i] && r[j] == s[skip + j];
  }

  /**
   * `find(filter).sort(order)`: every matching article exactly once, as stored,
   * in order; as many as `countDocuments(filter)` counts.
   */
  lemma SortedFind(o: Order, m: map<Id, Article>, f: Filter, textMatch: (string, Article) -> bool, n: nat)
    requires forall id :: id in m ==> m[id].id == id
    ensures var s := SortArticles(o, Collect(m, f, textMatch, n));
            && SortedBy(o, s)
            && |s| == |MatchingIds(m, f, textMatch, n)|
            && (forall k :: 0 <= k < |s| ==> s[k].id < n && s[k].id in m && m[s[k].id] == s[k] && Matches(f, textMatch, s[k]))
            && (forall id :: id < n && id in m && Matches(f, textMatch, m[id]) ==> m[id] in s)
  {
    var found := Collect(m, f, textMatch, n);
    var s := SortArticles(o, found);
    CollectCount(m, f, textMatch, n);
    assert |multiset(s)| == |multiset(found)|;
    forall k | 0 <= k < |s|
      ensures s[k] in found
    {
      assert s[k] in multiset(s);
    }
    forall id | id < n && id in m && Matches(f, textMatch, m[id])
      ensures m[id] in s
    {
      assert m[id] in multiset(found);
    }
  }
}
