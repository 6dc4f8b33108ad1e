/**
 * The Article document of models/Article.js: its schema constraints and
 * defaults, the pre-save hook (read time, summary, publish date, update
 * date) and the like/comment count virtuals.
 */
module ArticleModel {
  import opened Wrappers
  import opened Base
  import opened Text

  datatype Category =
    | Technology | Lifestyle | Travel | Food | Health
    | Business | Education | Entertainment | Sports | Other

  function CategoryName(c: Category): string {
    match c
    case Technology => "Technology"
    case Lifestyle => "Lifestyle"
    case Travel => "Travel"
    case Food => "Food"
    case Health => "Health"
    case Business => "Business"
    case Education => "Education"
    case Entertainment => "Entertainment"
    case Sports => "Sports"
    case Other => "Other"
  }

  /** The schema's category enumeration: a string is accepted iff it names one of the ten values. */
  function ParseCategory(s: string): (r: Option<Category>)
    ensures r.Some? ==> CategoryName(r.value) == s
    ensures r.None? ==> forall c: Category :: CategoryName(c) != s
  {
    if s == "Technology" then Some(Technology)
    else if s == "Lifestyle" then Some(Lifestyle)
    else if s == "Travel" then Some(Travel)
    else if s == "Food" then Some(Food)
    else if s == "Health" then Some(Health)
    else if s == "Business" then Some(Business)
    else if s == "Education" then Some(Education)
    else if s == "Entertainment" then Some(Entertainment)
    else if s == "Sports" then Some(Sports)
    else if s == "Other" then Some(Other)
    else None
  }

  datatype Status = Draft | Published | Archived

  function StatusName(s: Status): string {
    match s
    case Draft => "draft"
    case Published => "published"
    case Archived => "archived"
  }

  /** The schema's status enumeration. */
  function ParseStatus(s: string): (r: Option<Status>)
    ensures r.Some? ==> StatusName(r.value) == s
    ensures r.None? ==> forall t: Status :: StatusName(t) != s
  {
    if s == "draft" then Some(Draft)
    else if s == "published" then Some(Published)
    else if s == "archived" then Some(Archived)
    else None
  }

  /** Every category's name parses back to it. */
  lemma CategoryRoundTrip(c: Category)
    ensures ParseCategory(CategoryName(c)) == Some(c)
  {
  }

  /** Every status's name parses back to it. */
  lemma StatusRoundTrip(s: Status)
    ensures ParseStatus(StatusName(s)) == Some(s)
  {
  }

  const TitleMinLength := 5
  const TitleMaxLength := 200
  const ContentMinLength := 10
  const SummaryMaxLength := 500
  const TagMaxLength := 50
  const WordsPerMinute := 200
  const SummaryCut := 200
  const Ellipsis := "..."

  datatype Article = Article(
    id: Id,
    title: string,
    content: string,
    summary: string,
    author: Id,
    category: Category,
    tags: seq<string>,
    status: Status,
    featuredImage: string,
    readTime: nat,
    views: nat,
    likes: seq<Id>,
    comments: seq<Id>,
    createdAt: Millis,
    updatedAt: Millis,
    publishedAt: Option<Millis>)

  /** The virtual `likeCount`. */
  function LikeCount(a: Article): nat {
    |a.likes|
  }

  /** The virtual `commentCount`. */
  function CommentCount(a: Article): nat {
    |a.comments|
  }

  /** What every stored article satisfies: the schema's length and trimming constraints. */
  predicate WellFormed(a: Article) {
    && Trimmed(a.title)
    && TitleMinLength <= |a.title| <= TitleMaxLength
    && |a.content| >= ContentMinLength
    && |a.summary| <= SummaryMaxLength
    && (forall k :: 0 <= k < |a.tags| ==> Trimmed(a.tags[k]) && |a.tags[k]| <= TagMaxLength)
    && a.readTime >= 1
  }

  /**
   * The paths a controller assigns before a save, as it assigns them: a missing
   * body field is `None`. The schema's setters trim the title and every tag.
   */
  datatype ArticleFields = ArticleFields(
    title: Option<string>,
    content: Option<string>,
    summary: Option<string>,
    category: Option<string>,
    tags: seq<string>,
    status: string)

  datatype ValidationError =
    | TitleRequired | TitleTooShort | TitleTooLong
    | ContentRequired | ContentTooShort
    | SummaryTooLong
    | CategoryRequired | CategoryNotAllowed
    | StatusNotAllowed
    | TagTooLong

  /** Every schema validator passes for the assigned paths. */
  predicate SchemaAccepts(f: ArticleFields) {
    && f.title.Some? && TitleMinLength <= |Trim(f.title.value)| <= TitleMaxLength
    && f.content.Some? && |f.content.value| >= ContentMinLength
    && (f.summary.Some? ==> |f.summary.value| <= SummaryMaxLength)
    && f.category.Some? && ParseCategory(f.category.value).Some?
    && ParseStatus(f.status).Some?
    && (forall k :: 0 <= k < |f.tags| ==> |Trim(f.tags[k])| <= TagMaxLength)
  }

  /** No category is named by the empty string. */
  lemma EmptyNotCategory()
    ensures ParseCategory("").None?
  {
  }

  /** The first failing validator in schema order, if any. */
  function Validate(f: ArticleFields): (r: Option<ValidationError>)
    ensures r.None? <==> SchemaAccepts(f)
  {
    EmptyNotCategory();
    if f.title.None? || Trim(f.title.value) == "" then Some(TitleRequired)
    else if |Trim(f.title.value)| < TitleMinLength then Some(TitleTooShort)
    else if |Trim(f.title.value)| > TitleMaxLength then Some(TitleTooLong)
    else if f.content.None? || f.content.value == "" then Some(ContentRequired)
    else if |f.content.value| < ContentMinLength then Some(ContentTooShort)
    else if f.summary.Some? && |f.summary.value| > SummaryMaxLength then Some(SummaryTooLong)
    else if f.category.None? || f.category.value == "" then Some(CategoryRequired)
    else if ParseCategory(f.category.value).None? then Some(CategoryNotAllowed)
    else if ParseStatus(f.status).None? then Some(StatusNotAllowed)
    else if exists k :: 0 <= k < |f.tags| && |Trim(f.tags[k])| > TagMaxLength then Some(TagTooLong)
    else None
  }

  /** The document's defaults (`summary`, `featuredImage`, `readTime`, `views`, dates) for a new article. */
  function Defaults(id: Id, author: Id, now: Millis): (a: Article)
    ensures a.id == id && a.author == author
    ensures a.summary == "" && a.featuredImage == "" && a.readTime == 1 && a.views == 0
    ensures a.category == Other && a.status == Draft && a.tags == []
    ensures LikeCount(a) == 0 && CommentCount(a) == 0
    ensures a.createdAt == now && a.updatedAt == now && a.publishedAt.None?
  {
    Article(id, "", "", "", author, Other, [], Draft, "", 1, 0, [], [], now, now, None)
  }

  /** Assigns validated paths to a document, through the schema's trimming setters. */
  function Assign(base: Article, f: ArticleFields): (a: Article)
    requires SchemaAccepts(f)
    ensures a == base.(title := a.title, content := a.content, summary := a.summary,
                       category := a.category, tags := a.tags, status := a.status)
    ensures a.title == Trim(f.title.value) && a.content == f.content.value
    ensures a.summary == f.summary.GetOr("")
    ensures CategoryName(a.category) == f.category.value && StatusName(a.status) == f.status
    ensures a.tags == TrimAll(f.tags)
  {
    base.(title := Trim(f.title.value), content := f.content.value, summary := f.summary.GetOr(""),
          category := ParseCategory(f.category.value).value, tags := TrimAll(f.tags),
          status := ParseStatus(f.status).value)
  }

  /** `content.split(/\s+/).length`: one more than the number of white-space runs. */
  function WordCount(content: string): (n: nat)
    ensures n == WhiteSpaceRuns(content) + 1
    ensures n >= 1
  {
    SplitWhitespaceCount(content);
    |SplitWhitespace(content)|
  }

  /** Leading, trailing and repeated white space each count: `"  a  b  ".split(/\s+/)` has four pieces. */
  lemma PaddedWordCount()
    ensures WordCount("  a  b  ") == 4
  {
    var s := "  a  b  ";
    assert StartsRun(s, 0) && !StartsRun(s, 1) && !StartsRun(s, 2) && StartsRun(s, 3);
    assert !StartsRun(s, 4) && !StartsRun(s, 5) && StartsRun(s, 6) && !StartsRun(s, 7);
    assert RunsFrom(s, 4) == 1;
  }

  /**
   * `Math.ceil(wordCount / 200) || 1`: the least number of 200-word minutes covering
   * the words. The word count is at least 1, so the ceiling is at least 1 and the
   * `|| 1` fallback never applies.
   */
  function ReadTime(content: string): (r: nat)
    ensures r >= 1
    ensures (r - 1) * WordsPerMinute < WordCount(content) <= r * WordsPerMinute
  {
    CeilDiv(WordCount(content), WordsPerMinute)
  }

  /** Words joined by single spaces take the ceiling of their count over 200 minutes. */
  lemma ReadTimeOfWords(ws: seq<string>)
    requires |ws| >= 1
    requires forall k :: 0 <= k < |ws| ==> ws[k] != [] && NoSpace(ws[k])
    ensures WordCount(Join(ws, " ")) == |ws|
    ensures ReadTime(Join(ws, " ")) == CeilDiv(|ws|, WordsPerMinute)
  {
    SplitWhitespaceJoin(ws);
  }

  /** `content.substring(0, 200) + (content.length > 200 ? '...' : '')`. */
  function DerivedSummary(content: string): (s: string)
    ensures Min(|content|, SummaryCut) <= |s| <= SummaryCut + |Ellipsis| && |s| <= SummaryMaxLength
    ensures s[..Min(|content|, SummaryCut)] == content[..Min(|content|, SummaryCut)]
    ensures |content| <= SummaryCut ==> s == content
    ensures |content| > SummaryCut <==> |s| == SummaryCut + |Ellipsis| && s[SummaryCut..] == Ellipsis
  {
    if |content| > SummaryCut then content[..SummaryCut] + Ellipsis else content
  }

  /**
   * The pre-save hook. `contentModified` and `statusModified` are Mongoose's
   * `isModified('content')` and `isModified('status')`; `now` is `new Date()`.
   */
  function PreSaveHook(a: Article, contentModified: bool, statusModified: bool, now: Millis): (r: Article)
    ensures r == a.(readTime := r.readTime, summary := r.summary, publishedAt := r.publishedAt,
                    updatedAt := r.updatedAt)
    ensures contentModified ==>
              r.readTime >= 1 && (r.readTime - 1) * WordsPerMinute < WordCount(a.content) <= r.readTime * WordsPerMinute
    ensures !contentModified ==> r.readTime == a.readTime
    ensures a.summary != "" ==> r.summary == a.summary
    ensures a.summary == "" && a.content != "" ==> r.summary == DerivedSummary(a.content) && r.summary != ""
    ensures a.summary == "" && a.content == "" ==> r.summary == ""
    ensures a.publishedAt.Some? ==> r.publishedAt == a.publishedAt
    ensures a.publishedAt.None? && statusModified && a.status == Published ==> r.publishedAt == Some(now)
    ensures a.publishedAt.None? && !(statusModified && a.status == Published) ==> r.publishedAt.None?
    ensures r.updatedAt == now
  {
    var a1 := if contentModified then a.(readTime := ReadTime(a.content)) else a;
    var a2 := if a1.summary == "" && a1.content != "" then a1.(summary := DerivedSummary(a1.content)) else a1;
    var a3 := if statusModified && a2.status == Published && a2.publishedAt.None?
              then a2.(publishedAt := Some(now)) else a2;
    a3.(updatedAt := now)
  }

  /** A save of an article that satisfied the schema gives a well-formed article. */
  lemma PreSaveWellFormed(a: Article, contentModified: bool, statusModified: bool, now: Millis)
    requires Trimmed(a.title) && TitleMinLength <= |a.title| <= TitleMaxLength
    requires |a.content| >= ContentMinLength && |a.summary| <= SummaryMaxLength
    requires forall k :: 0 <= k < |a.tags| ==> Trimmed(a.tags[k]) && |a.tags[k]| <= TagMaxLength
    requires a.readTime >= 1
    ensures WellFormed(PreSaveHook(a, contentModified, statusModified, now))
  {
  }

  /**
   * Saving a document with a positive read time, after assigning paths the
   * schema accepted and whatever image, meets the schema's constraints; if the
   * document had a publication date whenever it was published, and the hook is
   * told whenever the assignment changed the status, the saved document has a
   * publication date whenever it is published.
   */
  lemma AssignedSaveWellFormed(base: Article, f: ArticleFields, image: string, contentModified: bool,
                               statusModified: bool, now: Millis)
    requires SchemaAccepts(f) && base.readTime >= 1
    requires base.status == Published ==> base.publishedAt.Some?
    requires Assign(base, f).status != base.status ==> statusModified
    ensures var r := PreSaveHook(Assign(base, f).(featuredImage := image), contentModified, statusModified, now);
            WellFormed(r) && (r.status == Published ==> r.publishedAt.Some?)
  {
    var a := Assign(base, f).(featuredImage := image);
    PreSaveWellFormed(a, contentModified, statusModified, now);
    if a.status == Published && a.publishedAt.None? {
      assert statusModified;
    }
  }

  /** A save that changes neither content nor status, of an article that has a summary, only stamps `updatedAt`. */
  lemma UnchangedSave(a: Article, now: Millis)
    requires a.summary != ""
    ensures PreSaveHook(a, false, false, now) == a.(updatedAt := now)
  {
  }

  /** One save: the two modification flags and the clock. */
  datatype Save = Save(contentModified: bool, statusModified: bool, now: Millis)

  /** The hook applied for each save in turn, with no other assignment in between. */
  function SaveAll(a: Article, saves: seq<Save>): Article
    decreases |saves|
  {
    if saves == [] then a
    else SaveAll(PreSaveHook(a, saves[0].contentModified, saves[0].statusModified, saves[0].now), saves[1..])
  }

  /** The pre-save hook never touches likes or comments, so no run of saves changes the two counts. */
  lemma {:induction false} SavesKeepCounts(a: Article, saves: seq<Save>)
    ensures LikeCount(SaveAll(a, saves)) == LikeCount(a)
    ensures CommentCount(SaveAll(a, saves)) == CommentCount(a)
    decreases |saves|
  {
    if saves != [] {
      var s := saves[0];
      SavesKeepCounts(PreSaveHook(a, s.contentModified, s.statusModified, s.now), saves[1..]);
    }
  }

  /** Once set, the publish date survives every later save. */
  lemma {:induction false} PublishedAtSetOnce(a: Article, saves: seq<Save>)
    requires a.publishedAt.Some?
    ensures SaveAll(a, saves).publishedAt == a.publishedAt
    decreases |saves|
  {
    if saves != [] {
      var s := saves[0];
      PublishedAtSetOnce(PreSaveHook(a, s.contentModified, s.statusModified, s.now), saves[1..]);
    }
  }

  /** A non-empty summary (supplied or derived) is never overwritten by later saves. */
  lemma {:induction false} SummaryNeverOverwritten(a: Article, saves: seq<Save>)
    requires a.summary != ""
    ensures SaveAll(a, saves).summary == a.summary
    decreases |saves|
  {
    if saves != [] {
      var s := saves[0];
      SummaryNeverOverwritten(PreSaveHook(a, s.contentModified, s.statusModified, s.now), saves[1..]);
    }
  }

  /** Saves never bring the read time below one minute, starting from the default of 1. */
  lemma {:induction false} ReadTimeStaysPositive(a: Article, saves: seq<Save>)
    requires a.readTime >= 1
    ensures SaveAll(a, saves).readTime >= 1
    decreases |saves|
  {
    if saves != [] {
      var s := saves[0];
      ReadTimeStaysPositive(PreSaveHook(a, s.contentModified, s.statusModified, s.now), saves[1..]);
    }
  }

  /** Once published, an article keeps a publish date through any saves that keep it published. */
  lemma {:induction false} PublishedKeepsDate(a: Article, saves: seq<Save>)
    requires a.status == Published && (a.publishedAt.Some? || (saves != [] && saves[0].statusModified))
    ensures SaveAll(a, saves).status == Published && SaveAll(a, saves).publishedAt.Some?
    decreases |saves|
  {
    if saves != [] {
      var s := saves[0];
      PublishedKeepsDate(PreSaveHook(a, s.contentModified, s.statusModified, s.now), saves[1..]);
    }
  }

  /** A Mongoose document of the model: the hook assigns its paths in place. */
  class ArticleDocument {
    var doc: Article

    constructor (a: Article)
      ensures doc == a
    {
      doc := a;
    }

    /** Runs the pre-save hook on this document. */
    method PreSave(contentModified: bool, statusModified: bool, now: Millis)
      modifies this
      ensures doc == PreSaveHook(old(doc), contentModified, statusModified, now)
    {
      if contentModified {
        doc := doc.(readTime := ReadTime(doc.content));
      }
      if doc.summary == "" && doc.content != "" {
        doc := doc.(summary := doc.content[..Min(|doc.content|, SummaryCut)]
                               + (if |doc.content| > SummaryCut then Ellipsis else ""));
      }
      if statusModified && doc.status == Published && doc.publishedAt.None? {
        doc := doc.(publishedAt := Some(now));
      }
      doc := doc.(updatedAt := now);
    }
  }
}
