/**
 * src/controllers/comment.controllers.js: listing a video's comments,
 * adding, editing and deleting a comment.
 */
module Comments {
  import opened Common
  import opened Entities
  import opened Docs
  import opened Store

  // ---------------------------------------------------------------------
  // getVideoComments

  /** One listed comment, as the pipeline's final `$project` shapes it. */
  datatype CommentView = CommentView(
    content: string,
    commentOwner: Option<UserCard>,
    commentLikeOwner: Option<Id>,
    totalCommentLikes: nat,
    isCommentLiked: bool,
    createdAt: nat)

  function CommentOnVideo(video: Id): Comment -> bool { (c: Comment) => c.video == video }

  function LikeOnComment(comment: Id): Like -> bool { (l: Like) => l.target == OnComment(comment) }

  function LikeOnCommentBy(comment: Id, liker: Id): Like -> bool {
    (l: Like) => l.target == OnComment(comment) && l.likedBy == liker
  }

  function CommentCreatedAt(c: Comment): int { c.createdAt }

  function ViewComment(s: State, me: Id): Comment -> CommentView {
    (c: Comment) =>
      CommentView(
        c.content,
        match FindUser(s.users, c.owner) case None => None case Some(i) => Some(Card(s.users[i])),
        match Find(s.likes, LikeOnComment(c.id)) case None => None case Some(k) => Some(s.likes[k].likedBy),
        Count(s.likes, LikeOnComment(c.id)),
        Find(s.likes, LikeOnCommentBy(c.id, me)).Some?,
        c.createdAt)
  }

  function VideoCommentsSelected(s: State, video: Id): seq<Comment> {
    SortDesc(Filter(s.comments, CommentOnVideo(video)), CommentCreatedAt)
  }

  /** `getVideoComments`: 400 for a malformed id; otherwise the video's comments, newest first. */
  function GetVideoComments(s: State, me: Id, videoId: string): (r: Outcome<seq<CommentView>>)
    ensures !IsValidObjectId(videoId) ==> r == Err(BadRequest)
    ensures IsValidObjectId(videoId) ==> r.Ok? && |r.value| == Count(s.comments, CommentOnVideo(CastId(videoId)))
  {
    if !IsValidObjectId(videoId) then Err(BadRequest)
    else
      FilterComplete(s.comments, CommentOnVideo(CastId(videoId)));
      Ok(Map(VideoCommentsSelected(s, CastId(videoId)), ViewComment(s, me)))
  }

  /** The listing selects exactly the video's comments, each once, newest first. */
  lemma VideoCommentsSelection(s: State, video: Id)
    ensures var sel := VideoCommentsSelected(s, video);
      && |sel| == Count(s.comments, CommentOnVideo(video))
      && SortedDesc(sel, CommentCreatedAt)
      && (forall c :: c in s.comments && c.video == video ==> c in sel)
      && (forall c :: c in sel ==> c in s.comments && c.video == video)
  {
    var f := Filter(s.comments, CommentOnVideo(video));
    var sel := SortDesc(f, CommentCreatedAt);
    FilterComplete(s.comments, CommentOnVideo(video));
    forall c | c in s.comments && c.video == video
      ensures c in sel
    {
      assert CommentOnVideo(video)(c);
      assert c in multiset(f);
    }
    forall c | c in sel
      ensures c in s.comments && c.video == video
    {
      assert c in multiset(f);
    }
  }

  /** `likes[k]` is the first like, in natural order, on the comment. */
  predicate FirstLikeOn(likes: seq<Like>, comment: Id, k: int) {
    && 0 <= k < |likes| && likes[k].target == OnComment(comment)
    && forall j :: 0 <= j < k ==> likes[j].target != OnComment(comment)
  }

  /**
   * Each view's like figures agree with the likes collection: the count of
   * likes on the comment, whether the requester is among them, and the
   * liker of the first like on the comment exactly when there is a like at
   * all.
   */
  lemma VideoCommentViews(s: State, me: Id, c: Comment)
    ensures var v := ViewComment(s, me)(c);
      && v.totalCommentLikes == Count(s.likes, LikeOnComment(c.id))
      && (v.isCommentLiked <==> exists k :: 0 <= k < |s.likes| && s.likes[k].target == OnComment(c.id) && s.likes[k].likedBy == me)
      && (v.commentLikeOwner.None? <==> v.totalCommentLikes == 0)
      && (v.commentLikeOwner.Some? ==>
            exists k :: FirstLikeOn(s.likes, c.id, k) && v.commentLikeOwner.value == s.likes[k].likedBy)
      && (v.isCommentLiked ==> v.totalCommentLikes > 0)
  {
    CountBounds(s.likes, LikeOnComment(c.id));
    var mine := Find(s.likes, LikeOnCommentBy(c.id, me));
    if mine.Some? {
      assert LikeOnComment(c.id)(s.likes[mine.value]);
    }
    var first := Find(s.likes, LikeOnComment(c.id));
    if first.Some? {
      assert FirstLikeOn(s.likes, c.id, first.value);
    }
  }

  // ---------------------------------------------------------------------
  // addComment, updateComment

  /**
   * `addComment`: 400 for a malformed id or missing content, 401 when the
   * video does not exist; otherwise the new comment by the requester.
   */
  method AddComment(db: Db, me: Id, videoId: string, content: Option<string>, newId: Id, now: nat)
    returns (r: Outcome<Comment>)
    requires db.Valid() && KeyAbsent(db.comments, CommentKey, newId)
    modifies db
    ensures db.Valid()
    ensures !IsValidObjectId(videoId) || !Truthy(content) ==> r == Err(BadRequest)
    ensures IsValidObjectId(videoId) && Truthy(content) && FindVideo(old(db.videos), CastId(videoId)).None? ==>
      r == Err(Unauthorized)
    ensures IsValidObjectId(videoId) && Truthy(content) && FindVideo(old(db.videos), CastId(videoId)).Some? ==>
      && r == Ok(Comment(newId, content.value, CastId(videoId), me, now))
      && db.Snapshot() == old(db.Snapshot()).(comments := old(db.comments) + [r.value])
    ensures r.Err? ==> db.Snapshot() == old(db.Snapshot())
  {
    if !IsValidObjectId(videoId) || !Truthy(content) {
      return Err(BadRequest);
    }
    var video := FindVideo(db.videos, CastId(videoId));
    if video.None? {
      return Err(Unauthorized);
    }
    var c := Comment(newId, content.value, CastId(videoId), me, now);
    UniqueByAppend(db.comments, CommentKey, c);
    db.comments := db.comments + [c];
    r := Ok(c);
  }

  /** A comment added to a video is listed among that video's comments. */
  lemma AddedCommentListed(s: State, c: Comment)
    ensures c in VideoCommentsSelected(s.(comments := s.comments + [c]), c.video)
  {
    VideoCommentsSelection(s.(comments := s.comments + [c]), c.video);
  }

  /**
   * `updateComment`: 400 for a malformed id or missing content, 404 when
   * missing, 401 when someone else's; otherwise sets the content and
   * answers the updated comment.
   */
  method UpdateComment(db: Db, me: Id, commentId: string, content: Option<string>) returns (r: Outcome<Comment>)
    requires db.Valid()
    modifies db
    ensures db.Valid()
    ensures !IsValidObjectId(commentId) || !Truthy(content) ==> r == Err(BadRequest)
    ensures IsValidObjectId(commentId) && Truthy(content) && FindComment(old(db.comments), CastId(commentId)).None? ==>
      r == Err(NotFound)
    ensures IsValidObjectId(commentId) && Truthy(content) && FindComment(old(db.comments), CastId(commentId)).Some? ==>
      var i := FindComment(old(db.comments), CastId(commentId)).value;
      if old(db.comments)[i].owner != me then r == Err(Unauthorized)
      else
        && r == Ok(old(db.comments)[i].(content := content.value))
        && db.Snapshot() == old(db.Snapshot()).(comments := old(db.comments)[i := r.value])
    ensures r.Err? ==> db.Snapshot() == old(db.Snapshot())
  {
    if !IsValidObjectId(commentId) || !Truthy(content) {
      return Err(BadRequest);
    }
    var found := FindComment(db.comments, CastId(commentId));
    if found.None? {
      return Err(NotFound);
    }
    var i := found.value;
    if db.comments[i].owner != me {
      return Err(Unauthorized);
    }
    var updated := db.comments[i].(content := content.value);
    UniqueByUpdate(db.comments, CommentKey, i, updated);
    db.comments := db.comments[i := updated];
    r := Ok(updated);
  }

  // ---------------------------------------------------------------------
  // deleteComment and its cascade

  /**
   * The cascade as written: `deleteMany` filters likes on the comment whose
   * `owner` is the requester, but like documents record `likedBy`, never
   * `owner`. With Mongoose's `strictQuery` off (its default from version 7)
   * the condition stays in the filter, matches no like and nothing is removed.
   */
  function CascadeAsWritten(likes: seq<Like>, comment: Id, me: Id): seq<Like> {
    Filter(likes, SurvivesOwnerFilter(comment, me))
  }

  /** The value at path `owner` of a like document: the like schema has no such field, so it is always missing. */
  function OwnerPath(l: Like): Option<Id> {
    None
  }

  /** The written `deleteMany` filter: the like is on the comment and its `owner` is the requester. */
  function MatchesOwnerFilter(comment: Id, me: Id): Like -> bool {
    (l: Like) => l.target == OnComment(comment) && OwnerPath(l) == Some(me)
  }

  /** The likes the written `deleteMany` leaves in place. */
  function SurvivesOwnerFilter(comment: Id, me: Id): Like -> bool {
    (l: Like) => !MatchesOwnerFilter(comment, me)(l)
  }

  /** The written cascade leaves every like of the deleted comment in place. */
  lemma CascadeAsWrittenKeepsLikes(likes: seq<Like>, comment: Id, me: Id)
    ensures CascadeAsWritten(likes, comment, me) == likes
    ensures Count(CascadeAsWritten(likes, comment, me), LikeOnComment(comment)) == Count(likes, LikeOnComment(comment))
    ensures Count(likes, LikeOnComment(comment)) > 0 ==> CascadeAsWritten(likes, comment, me) != Cascade(likes, comment)
  {
    forall j | 0 <= j < |likes|
      ensures SurvivesOwnerFilter(comment, me)(likes[j])
    {
      assert OwnerPath(likes[j]) == None;
      assert !MatchesOwnerFilter(comment, me)(likes[j]);
    }
    FilterKeepsAll(likes, SurvivesOwnerFilter(comment, me));
    CascadeSpec(likes, comment);
  }

  function NotLikeOnComment(comment: Id): Like -> bool {
    (l: Like) => l.target != OnComment(comment)
  }

  /**
   * The cascade as evidently meant: drop every like that references the
   * deleted comment (the requester owns the comment, so these are the
   * likes on the requester's comment).
   */
  function Cascade(likes: seq<Like>, comment: Id): (r: seq<Like>)
    ensures |r| <= |likes|
    ensures forall l :: l in r ==> l in likes && l.target != OnComment(comment)
  {
    Filter(likes, NotLikeOnComment(comment))
  }

  /** The corrected cascade removes exactly the likes on the comment and keeps every other like. */
  lemma CascadeSpec(likes: seq<Like>, comment: Id)
    ensures Count(Cascade(likes, comment), LikeOnComment(comment)) == 0
    ensures forall l :: l in likes && l.target != OnComment(comment) ==> l in Cascade(likes, comment)
    ensures forall l :: l in Cascade(likes, comment) ==> l in likes
    ensures |Cascade(likes, comment)| == |likes| - Count(likes, LikeOnComment(comment))
  {
    var r := Cascade(likes, comment);
    FilterComplete(likes, NotLikeOnComment(comment));
    CountBounds(r, LikeOnComment(comment));
    assert forall j :: 0 <= j < |r| ==> r[j] in r;
    CountDisjointUnion(likes, LikeOnComment(comment), NotLikeOnComment(comment), AnyLike());
    CountAll(likes, AnyLike());
  }

  function AnyLike(): Like -> bool { (l: Like) => true }


  /** A cascade keeps the likes' unique indexes. */
  lemma CascadeKeepsUnique(likes: seq<Like>, comment: Id)
    requires UniqueBy(likes, LikeKey) && UniqueBy(likes, LikeEdge)
    ensures UniqueBy(Cascade(likes, comment), LikeKey) && UniqueBy(Cascade(likes, comment), LikeEdge)
  {
    FilterUnique(likes, NotLikeOnComment(comment), LikeKey);
    FilterUnique(likes, NotLikeOnComment(comment), LikeEdge);
  }


  /**
   * `deleteComment`: 400 for a malformed id, 404 when missing, 401 when
   * someone else's; otherwise removes the comment, runs the cascade, and
   * answers the deleted comment.
   */
  method DeleteComment(db: Db, me: Id, commentId: string) returns (r: Outcome<Comment>)
    requires db.Valid()
    modifies db
    ensures db.Valid()
    ensures !IsValidObjectId(commentId) ==> r == Err(BadRequest)
    ensures IsValidObjectId(commentId) && FindComment(old(db.comments), CastId(commentId)).None? ==> r == Err(NotFound)
    ensures IsValidObjectId(commentId) && FindComment(old(db.comments), CastId(commentId)).Some? ==>
      var i := FindComment(old(db.comments), CastId(commentId)).value;
      if old(db.comments)[i].owner != me then r == Err(Unauthorized)
      else
        && r == Ok(old(db.comments)[i])
        && db.Snapshot() == old(db.Snapshot()).(
             comments := RemoveAt(old(db.comments), i),
             likes := Cascade(old(db.likes), CastId(commentId)))
    ensures r.Err? ==> db.Snapshot() == old(db.Snapshot())
  {
    if !IsValidObjectId(commentId) {
      return Err(BadRequest);
    }
    var found := FindComment(db.comments, CastId(commentId));
    if found.None? {
      return Err(NotFound);
    }
    var i := found.value;
    if db.comments[i].owner != me {
      return Err(Unauthorized);
    }
    r := Ok(db.comments[i]);
    UniqueByRemove(db.comments, CommentKey, i);
    CascadeKeepsUnique(db.likes, CastId(commentId));
    db.comments := RemoveAt(db.comments, i);
    db.likes := Cascade(db.likes, CastId(commentId));
  }
}
