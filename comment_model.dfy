/**
 * The Comment document of models/Comment.js: schema constraints and
 * defaults, the pre-save hook (update date and edit tracking) and the
 * like/reply count virtuals.
 */
module CommentModel {
  import opened Wrappers
  import opened Base
  import opened Text

  datatype CommentStatus = Pending | Approved | Rejected

  function CommentStatusName(s: CommentStatus): string {
    match s
    case Pending => "pending"
    case Approved => "approved"
    case Rejected => "rejected"
  }

  /** The schema's comment status enumeration. */
  function ParseCommentStatus(s: string): (r: Option<CommentStatus>)
    ensures r.Some? <==> s == "pending" || s == "approved" || s == "rejected"
    ensures r.Some? ==> CommentStatusName(r.value) == s
  {
    if s == "pending" then Some(Pending)
    else if s == "approved" then Some(Approved)
    else if s == "rejected" then Some(Rejected)
    else None
  }

  /** Every status's name parses back to that status. */
  lemma CommentStatusRoundTrip(st: CommentStatus)
    ensures ParseCommentStatus(CommentStatusName(st)) == Some(st)
  {
  }

  const CommentMinLength := 1
  const CommentMaxLength := 1000

  datatype Comment = Comment(
    id: Id,
    content: string,
    author: Id,
    article: Id,
    parentComment: Option<Id>,
    replies: seq<Id>,
    likes: seq<Id>,
    status: CommentStatus,
    isEdited: bool,
    editedAt: Option<Millis>,
    createdAt: Millis,
    updatedAt: Millis)

  /** The virtual `likeCount`. */
  function LikeCount(c: Comment): nat {
    |c.likes|
  }

  /** The virtual `replyCount`. */
  function ReplyCount(c: Comment): nat {
    |c.replies|
  }

  /** The trimmed content the schema stores for `raw`, if its length validators pass. */
  function ValidContent(raw: string): (r: Option<string>)
    ensures r.Some? <==> CommentMinLength <= |Trim(raw)| <= CommentMaxLength
    ensures r.Some? ==> r.value == Trim(raw) && Trimmed(r.value)
  {
    var t := Trim(raw);
    if CommentMinLength <= |t| <= CommentMaxLength then Some(t) else None
  }

  /**
   * A new comment document with the schema's defaults: approved, not edited,
   * no replies or likes, both dates `now`; `None` when the content is rejected.
   */
  function NewComment(id: Id, raw: string, author: Id, article: Id, parent: Option<Id>, now: Millis): (r: Option<Comment>)
    ensures r.Some? <==> CommentMinLength <= |Trim(raw)| <= CommentMaxLength
    ensures r.Some? ==> r.value.content == Trim(raw) && r.value.author == author && r.value.article == article
    ensures r.Some? ==> r.value.parentComment == parent && r.value.status == Approved
    ensures r.Some? ==> !r.value.isEdited && r.value.editedAt.None?
    ensures r.Some? ==> LikeCount(r.value) == 0 && ReplyCount(r.value) == 0
    ensures r.Some? ==> r.value.createdAt == now && r.value.updatedAt == now
  {
    match ValidContent(raw)
    case None => None
    case Some(t) => Some(Comment(id, t, author, article, parent, [], [], Approved, false, None, now, now))
  }

  /**
   * The pre-save hook. `isNew` is Mongoose's `isNew` (the document was never
   * saved), `contentModified` is `isModified('content')`, `now` is `new Date()`.
   */
  function PreSaveHook(c: Comment, isNew: bool, contentModified: bool, now: Millis): (r: Comment)
    ensures r == c.(updatedAt := r.updatedAt, isEdited := r.isEdited, editedAt := r.editedAt)
    ensures r.updatedAt == now
    ensures contentModified && !isNew ==> r.isEdited && r.editedAt == Some(now)
    ensures !(contentModified && !isNew) ==> r.isEdited == c.isEdited && r.editedAt == c.editedAt
    ensures c.isEdited ==> r.isEdited
  {
    var c1 := c.(updatedAt := now);
    if contentModified && !isNew then c1.(isEdited := true, editedAt := Some(now)) else c1
  }

  /** One save after the first: whether the content changed, and the clock. */
  datatype Edit = Edit(contentModified: bool, now: Millis)

  /** The hook applied for each later save of an already-saved comment. */
  function SaveEdits(c: Comment, edits: seq<Edit>): Comment
    decreases |edits|
  {
    if edits == [] then c
    else SaveEdits(PreSaveHook(c, false, edits[0].contentModified, edits[0].now), edits[1..])
  }

  /** The first save of a new comment leaves it unedited. */
  lemma FirstSaveNotEdited(c: Comment, contentModified: bool, now: Millis)
    requires !c.isEdited && c.editedAt.None?
    ensures !PreSaveHook(c, true, contentModified, now).isEdited
    ensures PreSaveHook(c, true, contentModified, now).editedAt.None?
  {
  }

  /** The pre-save hook never touches likes or replies, so no run of saves changes the two counts. */
  lemma {:induction false} EditsKeepCounts(c: Comment, edits: seq<Edit>)
    ensures LikeCount(SaveEdits(c, edits)) == LikeCount(c)
    ensures ReplyCount(SaveEdits(c, edits)) == ReplyCount(c)
    decreases |edits|
  {
    if edits != [] {
      EditsKeepCounts(PreSaveHook(c, false, edits[0].contentModified, edits[0].now), edits[1..]);
    }
  }

  /** The edited flag is never reset by later saves. */
  lemma {:induction false} EditedIsMonotone(c: Comment, edits: seq<Edit>)
    requires c.isEdited
    ensures SaveEdits(c, edits).isEdited
    decreases |edits|
  {
    if edits != [] {
      EditedIsMonotone(PreSaveHook(c, false, edits[0].contentModified, edits[0].now), edits[1..]);
    }
  }

  /** Starting unedited, a comment ends up edited exactly when some later save changed its content. */
  lemma {:induction false} EditedIffSomeEdit(c: Comment, edits: seq<Edit>)
    requires !c.isEdited
    ensures SaveEdits(c, edits).isEdited <==> exists k :: 0 <= k < |edits| && edits[k].contentModified
    decreases |edits|
  {
    if edits != [] {
      var c1 := PreSaveHook(c, false, edits[0].contentModified, edits[0].now);
      if edits[0].contentModified {
        EditedIsMonotone(c1, edits[1..]);
      } else {
        EditedIffSomeEdit(c1, edits[1..]);
        if exists k :: 0 <= k < |edits| && edits[k].contentModified {
          var k :| 0 <= k < |edits| && edits[k].contentModified;
          assert edits[1..][k - 1] == edits[k];
        }
        if exists k :: 0 <= k < |edits[1..]| && edits[1..][k].contentModified {
          var k :| 0 <= k < |edits[1..]| && edits[1..][k].contentModified;
          assert edits[k + 1] == edits[1..][k];
        }
      }
    }
  }

  /** Saves that never change the content keep the stamp. */
  lemma {:induction false} NoEditKeepsStamp(c: Comment, edits: seq<Edit>)
    requires forall k :: 0 <= k < |edits| ==> !edits[k].contentModified
    ensures SaveEdits(c, edits).editedAt == c.editedAt
    decreases |edits|
  {
    if edits != [] {
      var rest := edits[1..];
      assert !edits[0].contentModified;
      forall m | 0 <= m < |rest| ensures !rest[m].contentModified {
        assert rest[m] == edits[m + 1];
      }
      NoEditKeepsStamp(PreSaveHook(c, false, false, edits[0].now), rest);
    }
  }

  /** The save at `k` changed the content and no later one did: its time is the stamp. */
  lemma {:induction false} StampOfLastEdit(c: Comment, edits: seq<Edit>, k: nat)
    requires k < |edits| && edits[k].contentModified
    requires forall m :: k < m < |edits| ==> !edits[m].contentModified
    ensures SaveEdits(c, edits).editedAt == Some(edits[k].now)
    decreases |edits|
  {
    var c1 := PreSaveHook(c, false, edits[0].contentModified, edits[0].now);
    var rest := edits[1..];
    if k == 0 {
      forall m | 0 <= m < |rest| ensures !rest[m].contentModified {
        assert rest[m] == edits[m + 1];
      }
      NoEditKeepsStamp(c1, rest);
    } else {
      forall m | k - 1 < m < |rest| ensures !rest[m].contentModified {
        assert rest[m] == edits[m + 1];
      }
      assert rest[k - 1] == edits[k];
      StampOfLastEdit(c1, rest, k - 1);
    }
  }

  /** The time of the last content-changing save is the stamp, whatever came before. */
  lemma {:induction false} LastEditStamps(c: Comment, edits: seq<Edit>)
    ensures forall k :: 0 <= k < |edits| && edits[k].contentModified &&
                        (forall m :: k < m < |edits| ==> !edits[m].contentModified)
                        ==> SaveEdits(c, edits).editedAt == Some(edits[k].now)
  {
    forall k | 0 <= k < |edits| && edits[k].contentModified &&
               (forall m :: k < m < |edits| ==> !edits[m].contentModified)
      ensures SaveEdits(c, edits).editedAt == Some(edits[k].now)
    {
      StampOfLastEdit(c, edits, k);
    }
  }

  /** A Mongoose comment document: the hook assigns its paths in place, and a save clears `isNew`. */
  class CommentDocument {
    var doc: Comment
    var isNew: bool

    /** `new Comment({...})`: not yet saved. */
    constructor (c: Comment)
      ensures doc == c && isNew
    {
      doc := c;
      isNew := true;
    }

    /** `save()`: the pre-save hook, then the document is no longer new. */
    method Save(contentModified: bool, now: Millis)
      modifies this
      ensures doc == PreSaveHook(old(doc), old(isNew), contentModified, now)
      ensures !isNew
    {
      doc := doc.(updatedAt := now);
      if contentModified && !isNew {
        doc := doc.(isEdited := true, editedAt := Some(now));
      }
      isNew := false;
    }
  }
}
