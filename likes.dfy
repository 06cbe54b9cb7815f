/**
 * src/controllers/like.controllers.js: toggling a like on a video, a
 * comment or a tweet, and listing the videos the requesting user liked.
 */
module Likes {
  import opened Common
  import opened Entities
  import opened Docs
  import opened Store

  // ---------------------------------------------------------------------
  // Specification of a toggle

  /** The `findOne` filter `{<target>: id, likedBy: me}`. */
  function LikeMatcher(t: Target, liker: Id): Like -> bool {
    (l: Like) => l.target == t && l.likedBy == liker
  }

  function OnTarget(t: Target): Like -> bool {
    (l: Like) => l.target == t
  }

  /** `liker` has liked `t`: some like document records the pair. */
  ghost predicate Liked(likes: seq<Like>, t: Target, liker: Id) {
    exists i :: 0 <= i < |likes| && likes[i].target == t && likes[i].likedBy == liker
  }

  /** The response of a toggle: the like document it removed, or the one it created. */
  datatype Toggled = Removed(removed: Like) | Added(added: Like)

  /** What a toggle does to the likes: delete the first matching like, or append a new one. */
  function ToggleLikes(likes: seq<Like>, t: Target, liker: Id, newId: Id, now: nat): seq<Like> {
    match Find(likes, LikeMatcher(t, liker))
    case Some(i) => RemoveAt(likes, i)
    case None => likes + [Like(newId, t, liker, now)]
  }

  function ToggleAnswer(likes: seq<Like>, t: Target, liker: Id, newId: Id, now: nat): Toggled {
    match Find(likes, LikeMatcher(t, liker))
    case Some(i) => Removed(likes[i])
    case None => Added(Like(newId, t, liker, now))
  }

  /** Removing the like at `i` withdraws exactly its (target, user) pair, the pairs being unique. */
  lemma LikedAfterRemove(likes: seq<Like>, i: nat, t: Target, liker: Id)
    requires i < |likes| && UniqueBy(likes, LikeEdge)
    ensures Liked(RemoveAt(likes, i), t, liker) <==> Liked(likes, t, liker) && (t, liker) != LikeEdge(likes[i])
  {
    var r := RemoveAt(likes, i);
    if Liked(r, t, liker) {
      var k :| 0 <= k < |r| && r[k].target == t && r[k].likedBy == liker;
      var k' := if k < i then k else k + 1;
      assert r[k] == likes[k'];
      if k < i {
        assert LikeEdge(likes[k]) != LikeEdge(likes[i]);
      } else {
        assert LikeEdge(likes[i]) != LikeEdge(likes[k']);
      }
    }
    if Liked(likes, t, liker) && (t, liker) != LikeEdge(likes[i]) {
      var k :| 0 <= k < |likes| && likes[k].target == t && likes[k].likedBy == liker;
      var k' := if k < i then k else k - 1;
      assert r[k'] == likes[k];
    }
  }

  /** Appending a like adds exactly its (target, user) pair. */
  lemma LikedAfterAppend(likes: seq<Like>, l: Like, t: Target, liker: Id)
    ensures Liked(likes + [l], t, liker) <==> Liked(likes, t, liker) || (t, liker) == LikeEdge(l)
  {
    var r := likes + [l];
    assert r[|likes|] == l;
    if Liked(r, t, liker) && (t, liker) != LikeEdge(l) {
      var k :| 0 <= k < |r| && r[k].target == t && r[k].likedBy == liker;
      assert k < |likes| && r[k] == likes[k];
    }
    if Liked(likes, t, liker) {
      var k :| 0 <= k < |likes| && likes[k].target == t && likes[k].likedBy == liker;
      assert r[k] == likes[k];
    }
  }

  /** A toggle flips whether `liker` likes `t` and leaves every other (target, user) pair alone. */
  lemma ToggleFlips(likes: seq<Like>, t: Target, liker: Id, newId: Id, now: nat)
    requires UniqueBy(likes, LikeEdge)
    ensures Liked(ToggleLikes(likes, t, liker, newId, now), t, liker) <==> !Liked(likes, t, liker)
    ensures forall t', liker' :: (t', liker') != (t, liker) ==>
      (Liked(ToggleLikes(likes, t, liker, newId, now), t', liker') <==> Liked(likes, t', liker'))
  {
    var r := ToggleLikes(likes, t, liker, newId, now);
    match Find(likes, LikeMatcher(t, liker))
    case Some(i) =>
      assert LikeEdge(likes[i]) == (t, liker);
      assert Liked(likes, t, liker);
      forall t', liker' ensures Liked(r, t', liker') <==> Liked(likes, t', liker') && (t', liker') != (t, liker) {
        LikedAfterRemove(likes, i, t', liker');
      }
    case None =>
      assert !Liked(likes, t, liker);
      forall t', liker' ensures Liked(r, t', liker') <==> Liked(likes, t', liker') || (t', liker') == (t, liker) {
        LikedAfterAppend(likes, Like(newId, t, liker, now), t', liker');
      }
  }

  /** The like count of the toggled target moves liker exactly one, down if it was liked, up if not. */
  lemma ToggleCount(likes: seq<Like>, t: Target, liker: Id, newId: Id, now: nat)
    ensures Count(ToggleLikes(likes, t, liker, newId, now), OnTarget(t))
      == if Find(likes, LikeMatcher(t, liker)).Some?
         then Count(likes, OnTarget(t)) - 1
         else Count(likes, OnTarget(t)) + 1
    ensures Find(likes, LikeMatcher(t, liker)).Some? ==> Count(likes, OnTarget(t)) >= 1
  {
    match Find(likes, LikeMatcher(t, liker))
    case Some(i) =>
      CountRemoveAt(likes, i, OnTarget(t));
      CountBounds(likes, OnTarget(t));
    case None =>
      CountAppend(likes, [Like(newId, t, liker, now)], OnTarget(t));
      CountSingle(Like(newId, t, liker, now), OnTarget(t));
  }

  /** Toggling twice from "not liked" gives back exactly the original likes. */
  lemma ToggleTwiceRestores(likes: seq<Like>, t: Target, liker: Id, n1: Id, now1: nat, n2: Id, now2: nat)
    requires Find(likes, LikeMatcher(t, liker)).None?
    ensures ToggleLikes(ToggleLikes(likes, t, liker, n1, now1), t, liker, n2, now2) == likes
  {
    var once := likes + [Like(n1, t, liker, now1)];
    assert once[|likes|] == Like(n1, t, liker, now1);
    assert forall j :: 0 <= j < |likes| ==> once[j] == likes[j];
    assert Find(once, LikeMatcher(t, liker)) == Some(|likes|);
    assert RemoveAt(once, |likes|) == likes;
  }

  /** A toggle keeps the store's invariants on likes: unique ids and one like per (target, user). */
  lemma ToggleKeepsUnique(likes: seq<Like>, t: Target, liker: Id, newId: Id, now: nat)
    requires UniqueBy(likes, LikeKey) && UniqueBy(likes, LikeEdge)
    requires KeyAbsent(likes, LikeKey, newId)
    ensures UniqueBy(ToggleLikes(likes, t, liker, newId, now), LikeKey)
    ensures UniqueBy(ToggleLikes(likes, t, liker, newId, now), LikeEdge)
  {
    match Find(likes, LikeMatcher(t, liker))
    case Some(i) =>
      UniqueByRemove(likes, LikeKey, i);
      UniqueByRemove(likes, LikeEdge, i);
    case None =>
      var l := Like(newId, t, liker, now);
      assert KeyAbsent(likes, LikeEdge, LikeEdge(l)) by {
        forall j | 0 <= j < |likes| ensures LikeEdge(likes[j]) != LikeEdge(l) {
          assert !LikeMatcher(t, liker)(likes[j]);
        }
      }
      UniqueByAppend(likes, LikeKey, l);
      UniqueByAppend(likes, LikeEdge, l);
  }

  // ---------------------------------------------------------------------
  // The controller actions

  /** The shared body of the three toggles once the id has passed its guard. */
  method ToggleOn(db: Db, t: Target, me: Id, newId: Id, now: nat) returns (r: Toggled)
    requires db.Valid() && KeyAbsent(db.likes, LikeKey, newId)
    modifies db
    ensures db.Valid()
    ensures db.Snapshot() == old(db.Snapshot()).(likes := ToggleLikes(old(db.likes), t, me, newId, now))
    ensures r == ToggleAnswer(old(db.likes), t, me, newId, now)
  {
    ToggleKeepsUnique(db.likes, t, me, newId, now);
    var found := Find(db.likes, LikeMatcher(t, me));
    if found.Some? {
      r := Removed(db.likes[found.value]);
      db.likes := RemoveAt(db.likes, found.value);
    } else {
      r := Added(Like(newId, t, me, now));
      db.likes := db.likes + [r.added];
    }
  }

  /** `toggleVideoLike`: 400 for a malformed video id; no check that the video exists. */
  method ToggleVideoLike(db: Db, me: Id, videoId: string, newId: Id, now: nat) returns (r: Outcome<Toggled>)
    requires db.Valid() && KeyAbsent(db.likes, LikeKey, newId)
    modifies db
    ensures db.Valid()
    ensures !IsValidObjectId(videoId) ==> r == Err(BadRequest) && db.Snapshot() == old(db.Snapshot())
    ensures IsValidObjectId(videoId) ==>
      && r == Ok(ToggleAnswer(old(db.likes), OnVideo(CastId(videoId)), me, newId, now))
      && db.Snapshot() == old(db.Snapshot()).(likes := ToggleLikes(old(db.likes), OnVideo(CastId(videoId)), me, newId, now))
  {
    if !IsValidObjectId(videoId) {
      return Err(BadRequest);
    }
    var answer := ToggleOn(db, OnVideo(CastId(videoId)), me, newId, now);
    r := Ok(answer);
  }

  /**
   * `toggleCommentLike`: only an empty id is refused with 400; a malformed
   * one fails to cast in `findOne` (500); no check that the comment exists.
   */
  method ToggleCommentLike(db: Db, me: Id, commentId: string, newId: Id, now: nat) returns (r: Outcome<Toggled>)
    requires db.Valid() && KeyAbsent(db.likes, LikeKey, newId)
    modifies db
    ensures db.Valid()
    ensures commentId == "" ==> r == Err(BadRequest)
    ensures commentId != "" && !IsValidObjectId(commentId) ==> r == Err(ServerError)
    ensures r.Err? ==> db.Snapshot() == old(db.Snapshot())
    ensures IsValidObjectId(commentId) ==>
      && r == Ok(ToggleAnswer(old(db.likes), OnComment(CastId(commentId)), me, newId, now))
      && db.Snapshot() == old(db.Snapshot()).(likes := ToggleLikes(old(db.likes), OnComment(CastId(commentId)), me, newId, now))
  {
    if commentId == "" {
      return Err(BadRequest);
    }
    if !IsValidObjectId(commentId) {
      return Err(ServerError);
    }
    var answer := ToggleOn(db, OnComment(CastId(commentId)), me, newId, now);
    r := Ok(answer);
  }

  /** `toggleTweetLike`: the same guards as the comment toggle. */
  method ToggleTweetLike(db: Db, me: Id, tweetId: string, newId: Id, now: nat) returns (r: Outcome<Toggled>)
    requires db.Valid() && KeyAbsent(db.likes, LikeKey, newId)
    modifies db
    ensures db.Valid()
    ensures tweetId == "" ==> r == Err(BadRequest)
    ensures tweetId != "" && !IsValidObjectId(tweetId) ==> r == Err(ServerError)
    ensures r.Err? ==> db.Snapshot() == old(db.Snapshot())
    ensures IsValidObjectId(tweetId) ==>
      && r == Ok(ToggleAnswer(old(db.likes), OnTweet(CastId(tweetId)), me, newId, now))
      && db.Snapshot() == old(db.Snapshot()).(likes := ToggleLikes(old(db.likes), OnTweet(CastId(tweetId)), me, newId, now))
  {
    if tweetId == "" {
      return Err(BadRequest);
    }
    if !IsValidObjectId(tweetId) {
      return Err(ServerError);
    }
    var answer := ToggleOn(db, OnTweet(CastId(tweetId)), me, newId, now);
    r := Ok(answer);
  }

  // ---------------------------------------------------------------------
  // getLikedVideos

  /** The fields of a liked video the pipeline projects. */
  datatype VideoSummary = VideoSummary(
    id: Id,
    videoFile: Option<string>,
    thumbnail: string,
    duration: Option<real>,
    views: nat,
    title: string,
    description: string,
    createdAt: nat,
    isPublished: bool)

  function Summary(v: Video): VideoSummary {
    VideoSummary(v.id, v.videoFile, v.thumbnail, v.duration, v.views, v.title, v.description, v.createdAt, v.isPublished)
  }

  /** One like of the user joined with its video: the like's time and the video. */
  datatype LikedEntry = LikedEntry(likedAt: nat, video: Video)

  function LikedAt(e: LikedEntry): int { e.likedAt }

  function EntrySummary(e: LikedEntry): VideoSummary { Summary(e.video) }

  /**
   * The `$lookup` of one like: its video, kept only when the like is liker
   * `me`, is on a video, the video exists and its owner exists (the inner
   * `$unwind` of the owner drops the rest).
   */
  function JoinOne(s: State, me: Id, l: Like): seq<LikedEntry> {
    if l.likedBy != me || !l.target.OnVideo? then []
    else match FindVideo(s.videos, l.target.video)
      case None => []
      case Some(i) =>
        if FindUser(s.users, s.videos[i].owner).None? then []
        else [LikedEntry(l.createdAt, s.videos[i])]
  }

  /** `$match` on `likedBy`, `$lookup` and `$unwind`, over the likes in natural order. */
  function Joined(s: State, me: Id, likes: seq<Like>): (r: seq<LikedEntry>)
    ensures |r| <= |likes|
  {
    if |likes| == 0 then []
    else Joined(s, me, likes[..|likes| - 1]) + JoinOne(s, me, likes[|likes| - 1])
  }

  /** The entry a like contributes, when it contributes one. */
  ghost predicate Resolves(s: State, me: Id, l: Like, v: Video) {
    l.likedBy == me && l.target == OnVideo(v.id) && v in s.videos
    && exists k :: 0 <= k < |s.users| && s.users[k].id == v.owner
  }

  /**
   * An entry is in the join exactly when some like of `me` resolves to that
   * video (the store's ids being unique).
   */
  lemma {:induction false} JoinedSpec(s: State, me: Id, likes: seq<Like>)
    requires UniqueBy(s.videos, VideoKey)
    ensures forall e :: e in Joined(s, me, likes) ==>
      exists k :: 0 <= k < |likes| && likes[k].createdAt == e.likedAt && Resolves(s, me, likes[k], e.video)
    ensures forall k, v :: 0 <= k < |likes| && Resolves(s, me, likes[k], v) ==>
      LikedEntry(likes[k].createdAt, v) in Joined(s, me, likes)
    decreases |likes|
  {
    if |likes| > 0 {
      var init := likes[..|likes| - 1];
      var l := likes[|likes| - 1];
      JoinedSpec(s, me, init);
      forall e | e in JoinOne(s, me, l)
        ensures l.createdAt == e.likedAt && Resolves(s, me, l, e.video)
      {
        var i := FindVideo(s.videos, l.target.video).value;
        var o := FindUser(s.users, s.videos[i].owner).value;
        assert s.videos[i] in s.videos;
      }
      forall v | Resolves(s, me, l, v)
        ensures LikedEntry(l.createdAt, v) in JoinOne(s, me, l)
      {
        var j :| 0 <= j < |s.videos| && s.videos[j] == v;
        var i := FindVideo(s.videos, v.id).value;
        UniqueFind(s.videos, VideoKey, i, j);
      }
      forall k | 0 <= k < |init| ensures init[k] == likes[k] { }
    }
  }

  /**
   * `getLikedVideos`: the videos the user liked, newest like first, each
   * once per like (the aggregate result is always an array, so its 400
   * branch cannot be taken).
   */
  function GetLikedVideos(s: State, me: Id): (r: seq<VideoSummary>)
    ensures |r| <= |s.likes|
  {
    Map(LikedEntries(s, me), EntrySummary)
  }

  /** The joined likes after `$sort` on the like's `createdAt`, descending. */
  function LikedEntries(s: State, me: Id): seq<LikedEntry> {
    SortDesc(Joined(s, me, s.likes), LikedAt)
  }

  /**
   * The test a like passes to reach the listing, stated over the
   * collections: liker `me`, on a video that is stored and whose owner is
   * stored.
   */
  function LikeResolves(s: State, me: Id): Like -> bool {
    (l: Like) =>
      && l.likedBy == me && l.target.OnVideo?
      && exists i :: 0 <= i < |s.videos| && s.videos[i].id == l.target.video
           && exists k :: 0 <= k < |s.users| && s.users[k].id == s.videos[i].owner
  }

  /** A like contributes one entry when it passes the test and none otherwise. */
  lemma LikeResolvesOne(s: State, me: Id, l: Like)
    requires UniqueBy(s.videos, VideoKey)
    ensures |JoinOne(s, me, l)| == if LikeResolves(s, me)(l) then 1 else 0
  {
    if l.likedBy == me && l.target.OnVideo? {
      var found := FindVideo(s.videos, l.target.video);
      if LikeResolves(s, me)(l) {
        var i :| 0 <= i < |s.videos| && s.videos[i].id == l.target.video
          && exists k :: 0 <= k < |s.users| && s.users[k].id == s.videos[i].owner;
        UniqueFind(s.videos, VideoKey, found.value, i);
      } else if found.Some? {
        assert s.videos[found.value].id == l.target.video;
      }
    }
  }

  /** The test holds exactly when the like resolves to some video. */
  lemma LikeResolvesMeans(s: State, me: Id, l: Like)
    ensures LikeResolves(s, me)(l) <==> exists v :: Resolves(s, me, l, v)
  {
    if LikeResolves(s, me)(l) {
      var i :| 0 <= i < |s.videos| && s.videos[i].id == l.target.video
        && exists k :: 0 <= k < |s.users| && s.users[k].id == s.videos[i].owner;
      assert Resolves(s, me, l, s.videos[i]);
    }
    if exists v :: Resolves(s, me, l, v) {
      var v :| Resolves(s, me, l, v);
      var i :| 0 <= i < |s.videos| && s.videos[i] == v;
      assert s.videos[i].id == l.target.video;
    }
  }

  /** The join has one entry per like of the user that resolves. */
  lemma {:induction false} JoinedLength(s: State, me: Id, likes: seq<Like>)
    requires UniqueBy(s.videos, VideoKey)
    ensures |Joined(s, me, likes)| == Count(likes, LikeResolves(s, me))
    decreases |likes|
  {
    if |likes| > 0 {
      JoinedLength(s, me, likes[..|likes| - 1]);
      LikeResolvesOne(s, me, likes[|likes| - 1]);
    }
  }

  /** `x` summarises a video that one of the user's likes resolves to. */
  ghost predicate FromLike(s: State, me: Id, x: VideoSummary) {
    exists k, v :: 0 <= k < |s.likes| && Resolves(s, me, s.likes[k], v) && x == Summary(v)
  }

  /** Every video in the listing is one a like of the user resolves to. */
  lemma LikedVideosSound(s: State, me: Id, i: nat)
    requires UniqueBy(s.videos, VideoKey)
    requires i < |GetLikedVideos(s, me)|
    ensures FromLike(s, me, GetLikedVideos(s, me)[i])
  {
    var j := Joined(s, me, s.likes);
    var sorted := LikedEntries(s, me);
    JoinedSpec(s, me, s.likes);
    assert sorted[i] in multiset(j);
    assert sorted[i] in j;
  }

  /** Every like of the user that resolves to a video puts that video in the listing. */
  lemma LikedVideosComplete(s: State, me: Id, k: nat, v: Video)
    requires UniqueBy(s.videos, VideoKey)
    requires k < |s.likes| && Resolves(s, me, s.likes[k], v)
    ensures Summary(v) in GetLikedVideos(s, me)
  {
    var j := Joined(s, me, s.likes);
    var sorted := LikedEntries(s, me);
    JoinedSpec(s, me, s.likes);
    var e := LikedEntry(s.likes[k].createdAt, v);
    assert e in multiset(sorted);
    var i :| 0 <= i < |sorted| && sorted[i] == e;
    assert GetLikedVideos(s, me)[i] == Summary(v);
  }

  lemma LikedEntryFromLike(s: State, me: Id, i: nat)
    requires UniqueBy(s.videos, VideoKey)
    requires i < |LikedEntries(s, me)|
    ensures var e := LikedEntries(s, me)[i];
      exists k :: 0 <= k < |s.likes| && s.likes[k].createdAt == e.likedAt && Resolves(s, me, s.likes[k], e.video)
  {
    var j := Joined(s, me, s.likes);
    var e := LikedEntries(s, me)[i];
    JoinedSpec(s, me, s.likes);
    assert e in multiset(j);
    assert e in j;
  }

  /** One joined like per resolving like of the user. */
  lemma LikedEntriesCount(s: State, me: Id)
    requires UniqueBy(s.videos, VideoKey)
    ensures |LikedEntries(s, me)| == Count(s.likes, LikeResolves(s, me))
  {
    JoinedLength(s, me, s.likes);
  }

  /** The joined likes come newest like first. */
  lemma LikedEntriesOrder(s: State, me: Id)
    ensures var es := LikedEntries(s, me);
      forall i, j :: 0 <= i < j < |es| ==> es[i].likedAt >= es[j].likedAt
  {
    var es := LikedEntries(s, me);
    forall i, j | 0 <= i < j < |es|
      ensures es[i].likedAt >= es[j].likedAt
    {
      assert LikedAt(es[i]) >= LikedAt(es[j]);
    }
  }

  /**
   * The listing holds the summary of a video exactly when one of the user's
   * likes resolves to it, one entry per such like, each the summary of the
   * joined like at the same position (newest like first).
   */
  lemma LikedVideosSpec(s: State, me: Id)
    requires UniqueBy(s.videos, VideoKey)
    ensures forall i :: 0 <= i < |GetLikedVideos(s, me)| ==>
      FromLike(s, me, GetLikedVideos(s, me)[i])
    ensures forall k, v :: 0 <= k < |s.likes| && Resolves(s, me, s.likes[k], v) ==> Summary(v) in GetLikedVideos(s, me)
    ensures |GetLikedVideos(s, me)| == Count(s.likes, LikeResolves(s, me))
    ensures forall i :: 0 <= i < |GetLikedVideos(s, me)| ==> GetLikedVideos(s, me)[i] == Summary(LikedEntries(s, me)[i].video)
  {
    forall i | 0 <= i < |GetLikedVideos(s, me)|
      ensures FromLike(s, me, GetLikedVideos(s, me)[i])
    {
      LikedVideosSound(s, me, i);
    }
    forall k, v | 0 <= k < |s.likes| && Resolves(s, me, s.likes[k], v)
      ensures Summary(v) in GetLikedVideos(s, me)
    {
      LikedVideosComplete(s, me, k, v);
    }
    JoinedLength(s, me, s.likes);
  }
}
