/**
 * src/controllers/video.controllers.js: listing, publishing, watching,
 * editing, deleting and (un)publishing videos.
 */
module Videos {
  import opened Common
  import opened Entities
  import opened External
  import opened Docs
  import opened Store
  import opened UserModel
  import opened Cloud
  import opened Text
  import Likes
  import Subscriptions

  // ---------------------------------------------------------------------
  // getAllVideos

  /** The `$regex` with option `i`, read as a plain case-insensitive search for the query text. */
  function MatchesQuery(query: string): Video -> bool {
    (v: Video) => IndexOf(Lower(v.title), Lower(query)).Some? || IndexOf(Lower(v.description), Lower(query)).Some?
  }

  /** The `$match`: published, owned by the given user when one is given, and matching the query. */
  function Listed(query: string, owner: Option<Id>): Video -> bool {
    (v: Video) => v.isPublished && (owner.None? || v.owner == owner.value) && MatchesQuery(query)(v)
  }

  /**
   * The `$sort` key, negated for ascending order so that one descending
   * sort serves both; a field other than `createdAt` and `views` gives no
   * order at all.
   */
  function SortKey(field: string, ascending: bool): Video -> int {
    (v: Video) =>
      var k := if field == "createdAt" then v.createdAt as int else if field == "views" then v.views as int else 0;
      if ascending then -k else k
  }

  /** The sort stage: the requested field and direction when both are given, else newest first. */
  function SortStage(sortBy: Option<string>, sortType: Option<string>): (string, bool) {
    if Truthy(sortBy) && Truthy(sortType) then (sortBy.value, sortType.value == "asc") else ("createdAt", false)
  }

  /**
   * `getAllVideos`: 401 without a user id; the owner filter applies only
   * when the id is well formed; every listed video is published.
   */
  function GetAllVideos(s: State, query: Option<string>, sortBy: Option<string>, sortType: Option<string>, userId: Option<string>)
    : (r: Outcome<seq<Video>>)
    ensures r.Err? <==> !Truthy(userId)
    ensures r.Err? ==> r.status == Unauthorized
    ensures r.Ok? ==> |r.value| <= |s.videos| && forall v :: v in r.value ==> v in s.videos && v.isPublished
  {
    if !Truthy(userId) then Err(Unauthorized)
    else
      var (field, ascending) := SortStage(sortBy, sortType);
      var f := Filter(s.videos, Listed(QueryText(query), OwnerFilter(userId.value)));
      var sorted := SortDesc(f, SortKey(field, ascending));
      SortDescMembers(f, SortKey(field, ascending));
      Ok(sorted)
  }

  /** The query text `getAllVideos` matches with: the given one, or "" for none. */
  function QueryText(query: Option<string>): string {
    if Truthy(query) then query.value else ""
  }

  /** The owner filter: only for a well-formed user id. */
  function OwnerFilter(userId: string): Option<Id> {
    if IsValidObjectId(userId) then Some(CastId(userId)) else None
  }

  /**
   * The listing holds exactly the published videos that match the query
   * (and the owner, for a well-formed id), each as often as it is stored.
   */
  lemma GetAllVideosSelection(s: State, query: Option<string>, sortBy: Option<string>, sortType: Option<string>, userId: string)
    requires userId != ""
    ensures var r := GetAllVideos(s, query, sortBy, sortType, Some(userId));
      && r.Ok?
      && multiset(r.value) == multiset(Filter(s.videos, Listed(QueryText(query), OwnerFilter(userId))))
      && (forall v :: v in r.value ==> v in s.videos && v.isPublished)
      && (forall v :: v in s.videos && Listed(QueryText(query), OwnerFilter(userId))(v) ==> v in r.value)
      && (IsValidObjectId(userId) ==> forall v :: v in r.value ==> v.owner == CastId(userId))
  {
    var p := Listed(QueryText(query), OwnerFilter(userId));
    var f := Filter(s.videos, p);
    var r := GetAllVideos(s, query, sortBy, sortType, Some(userId)).value;
    assert multiset(r) == multiset(f);
    FilterComplete(s.videos, p);
    forall v | v in r ensures v in f {
      assert v in multiset(f);
    }
    forall v | v in s.videos && p(v) ensures v in r {
      assert v in multiset(r);
    }
  }

  /** The listing is ordered by the requested field and direction (newest first by default). */
  lemma GetAllVideosOrder(s: State, query: Option<string>, sortBy: Option<string>, sortType: Option<string>, userId: string)
    requires userId != ""
    ensures var r := GetAllVideos(s, query, sortBy, sortType, Some(userId));
      r.Ok? && SortedDesc(r.value, SortKey(SortStage(sortBy, sortType).0, SortStage(sortBy, sortType).1))
    ensures !Truthy(sortBy) ==> SortedDesc(GetAllVideos(s, query, sortBy, sortType, Some(userId)).value, SortKey("createdAt", false))
  {
  }

  /** Without a query every video matches, so a listing without query or owner is every published video. */
  lemma EmptyQueryMatchesAll(v: Video)
    ensures MatchesQuery(QueryText(None))(v)
  {
    assert OccursAt(Lower(QueryText(None)), Lower(v.title), 0);
  }

  // ---------------------------------------------------------------------
  // publishAVideo

  /** The multipart file fields: each present (with its stored path) or absent. */
  datatype UploadFields = UploadFields(videoFile: Option<string>, thumbnail: Option<string>)

  /** Title and description are present and not blank. */
  predicate TextGiven(title: Option<string>, description: Option<string>) {
    title.Some? && Trim(title.value) != "" && description.Some? && Trim(description.value) != ""
  }

  /**
   * The decision `publishAVideo` takes. Reading `trim` of a missing title or
   * description, or the first file of a missing file field in a multipart
   * request, throws (500); a blank title or description is 400; no video
   * path is 401, no thumbnail path 400; a failed upload of either is 401.
   */
  function Publish(
    me: Id, title: Option<string>, description: Option<string>, files: Option<UploadFields>,
    videoAnswer: Option<Uploaded>, thumbnailAnswer: Option<Uploaded>, newId: Id, now: nat)
    : (r: Outcome<Video>)
    ensures r.Ok? <==>
      && title.Some? && Trim(title.value) != ""
      && description.Some? && Trim(description.value) != ""
      && files.Some? && Truthy(files.value.videoFile) && Truthy(files.value.thumbnail)
      && videoAnswer.Some? && thumbnailAnswer.Some?
    ensures r.Ok? ==>
      && r.value.id == newId && r.value.owner == me
      && !r.value.isPublished && r.value.views == 0
      && r.value.title == title.value && r.value.description == description.value
      && r.value.videoFile == Some(videoAnswer.value.url)
      && r.value.thumbnail == thumbnailAnswer.value.url
      && r.value.duration == videoAnswer.value.duration
    ensures title.None? || (title.Some? && Trim(title.value) != "" && description.None?) ==> r == Err(ServerError)
    ensures title.Some? && Trim(title.value) == "" ==> r == Err(BadRequest)
    ensures title.Some? && Trim(title.value) != "" && description.Some? && Trim(description.value) == "" ==>
      r == Err(BadRequest)
    ensures (
      && TextGiven(title, description)
      && files.Some? && (files.value.videoFile.None? || files.value.thumbnail.None?)) ==> r == Err(ServerError)
    ensures (
      && TextGiven(title, description)
      && (files.None? || (files.value.videoFile == Some("") && files.value.thumbnail.Some?))) ==> r == Err(Unauthorized)
    ensures (
      && TextGiven(title, description)
      && files.Some? && Truthy(files.value.videoFile) && files.value.thumbnail == Some("")) ==> r == Err(BadRequest)
    ensures (
      && TextGiven(title, description)
      && files.Some? && Truthy(files.value.videoFile) && Truthy(files.value.thumbnail)
      && (videoAnswer.None? || thumbnailAnswer.None?)) ==> r == Err(Unauthorized)
  {
    if title.None? then Err(ServerError)
    else if Trim(title.value) == "" then Err(BadRequest)
    else if description.None? then Err(ServerError)
    else if Trim(description.value) == "" then Err(BadRequest)
    else if files.Some? && files.value.videoFile.None? then Err(ServerError)
    else if files.Some? && files.value.thumbnail.None? then Err(ServerError)
    else
      var videoPath := if files.None? then None else files.value.videoFile;
      var thumbnailPath := if files.None? then None else files.value.thumbnail;
      if !Truthy(videoPath) then Err(Unauthorized)
      else if !Truthy(thumbnailPath) then Err(BadRequest)
      else
        var videoFile := UploadOnCloud(videoPath, videoAnswer);
        var thumbnail := UploadOnCloud(thumbnailPath, thumbnailAnswer);
        if videoFile.None? then Err(Unauthorized)
        else if thumbnail.None? then Err(Unauthorized)
        else Ok(Video(newId, Some(videoFile.value.url), thumbnail.value.url, title.value, description.value,
                      videoFile.value.duration, 0, false, me, now))
  }

  /** `publishAVideo`: stores the video `Publish` builds, unpublished, and answers it. */
  method PublishAVideo(
    db: Db, me: Id, title: Option<string>, description: Option<string>, files: Option<UploadFields>,
    videoAnswer: Option<Uploaded>, thumbnailAnswer: Option<Uploaded>, newId: Id, now: nat)
    returns (r: Outcome<Video>)
    requires db.Valid() && KeyAbsent(db.videos, VideoKey, newId)
    modifies db
    ensures db.Valid()
    ensures r == Publish(me, title, description, files, videoAnswer, thumbnailAnswer, newId, now)
    ensures r.Err? ==> db.Snapshot() == old(db.Snapshot())
    ensures r.Ok? ==> db.Snapshot() == old(db.Snapshot()).(videos := old(db.videos) + [r.value])
  {
    r := Publish(me, title, description, files, videoAnswer, thumbnailAnswer, newId, now);
    if r.Ok? {
      UniqueByAppend(db.videos, VideoKey, r.value);
      db.videos := db.videos + [r.value];
    }
  }

  // ---------------------------------------------------------------------
  // getVideoById

  /** The owner as the inner pipeline shapes it. */
  datatype OwnerView = OwnerView(id: Id, username: string, avatar: string, subscriberCount: nat, isSubscribed: bool)

  /** The video as the pipeline's final `$project` shapes it. */
  datatype VideoView = VideoView(
    id: Id,
    videoFile: Option<string>,
    title: string,
    description: string,
    duration: Option<real>,
    views: nat,
    createdAt: nat,
    isLiked: bool,
    likesCount: nat,
    ownercheck: seq<OwnerView>,
    owner: Option<OwnerView>)

  function ViewOwner(s: State, me: Id): User -> OwnerView {
    (u: User) =>
      OwnerView(u.id, u.username, u.avatar,
        Count(s.subscriptions, Subscriptions.OfChannel(u.id)),
        Find(s.subscriptions, Subscriptions.SubscriptionMatcher(u.id, me)).Some?)
  }

  function OwnerLookup(s: State, me: Id, v: Video): seq<OwnerView> {
    Map(Filter(s.users, UserHasId(v.owner)), ViewOwner(s, me))
  }

  function ViewVideo(s: State, me: Id, v: Video): (w: VideoView)
    ensures && w.id == v.id && w.videoFile == v.videoFile && w.title == v.title && w.description == v.description
            && w.duration == v.duration && w.views == v.views && w.createdAt == v.createdAt
    ensures forall o :: o in w.ownercheck ==> o.id == v.owner
    ensures w.owner.Some? <==> |w.ownercheck| > 0
    ensures w.owner.Some? ==> w.owner.value == w.ownercheck[0] && w.owner.value.id == v.owner
  {
    var users := Filter(s.users, UserHasId(v.owner));
    assert forall k :: 0 <= k < |users| ==> users[k] in users;
    var owners := OwnerLookup(s, me, v);
    VideoView(v.id, v.videoFile, v.title, v.description, v.duration, v.views, v.createdAt,
      Find(s.likes, Likes.LikeMatcher(OnVideo(v.id), me)).Some?,
      Count(s.likes, Likes.OnTarget(OnVideo(v.id))),
      owners,
      if |owners| == 0 then None else Some(owners[0]))
  }

  /**
   * The answer's figures agree with the store: the video's like count and
   * whether the requester liked it; the owner, present exactly when the
   * owning user exists, with that user's subscriber count and whether the
   * requester subscribes.
   */
  lemma ViewVideoSpec(s: State, me: Id, v: Video)
    requires UniqueBy(s.users, UserKey)
    ensures var w := ViewVideo(s, me, v);
      && w.likesCount == Count(s.likes, Likes.OnTarget(OnVideo(v.id)))
      && (w.isLiked <==> Likes.Liked(s.likes, OnVideo(v.id), me))
      && (w.owner.Some? <==> exists k :: 0 <= k < |s.users| && s.users[k].id == v.owner)
      && |w.ownercheck| <= 1
      && (w.owner.Some? ==>
            && w.owner.value.id == v.owner
            && w.owner.value.subscriberCount == Count(s.subscriptions, Subscriptions.OfChannel(v.owner))
            && (w.owner.value.isSubscribed <==> Subscriptions.Subscribed(s.subscriptions, v.owner, me)))
  {
    var f := Filter(s.users, UserHasId(v.owner));
    FilterComplete(s.users, UserHasId(v.owner));
    CountBounds(s.users, UserHasId(v.owner));
    AtMostOneWithKey(s.users, v.owner);
    if |f| > 0 {
      assert f[0] in f;
    }
    if exists k :: 0 <= k < |s.users| && s.users[k].id == v.owner {
      var k :| 0 <= k < |s.users| && s.users[k].id == v.owner;
      assert UserHasId(v.owner)(s.users[k]);
    }
  }

  /** Under the unique index on `_id`, at most one user has a given id. */
  lemma {:induction false} AtMostOneWithKey(users: seq<User>, id: Id)
    requires UniqueBy(users, UserKey)
    ensures Count(users, UserHasId(id)) <= 1
    decreases |users|
  {
    if |users| > 0 {
      var init := users[..|users| - 1];
      assert UniqueBy(init, UserKey);
      AtMostOneWithKey(init, id);
      if users[|users| - 1].id == id {
        CountBounds(init, UserHasId(id));
        forall j | 0 <= j < |init| ensures !UserHasId(id)(init[j]) {
          assert init[j] == users[j];
        }
      }
    }
  }

  /**
   * What watching does to the store. `includes` compares the route text
   * `videoId` with the stored ids' lower-case hexadecimal text, so the views
   * go up by one unless that very text is in the viewer's watch history;
   * `$addToSet` casts the id, so the video's own id joins the history.
   */
  function Watch(s: State, i: nat, u: nat, videoId: string): (t: State)
    requires i < |s.videos| && u < |s.users|
    ensures t == s.(videos := t.videos, users := t.users)
    ensures |t.videos| == |s.videos| && |t.users| == |s.users|
    ensures t.videos[i] == s.videos[i].(views := t.videos[i].views)
    ensures t.videos[i].views == s.videos[i].views + (if videoId in s.users[u].watchHistory then 0 else 1)
    ensures forall j :: 0 <= j < |s.videos| && j != i ==> t.videos[j] == s.videos[j]
    ensures t.users[u] == s.users[u].(watchHistory := t.users[u].watchHistory)
    ensures forall x :: x in t.users[u].watchHistory <==> x in s.users[u].watchHistory || x == s.videos[i].id
    ensures forall j :: 0 <= j < |s.users| && j != u ==> t.users[j] == s.users[j]
  {
    var v := s.videos[i];
    var user := s.users[u];
    s.(videos := if videoId in user.watchHistory then s.videos else s.videos[i := v.(views := v.views + 1)],
       users := s.users[u := user.(watchHistory := AddToSet(user.watchHistory, v.id))])
  }

  /**
   * With the id spelled as stored (lower-case hexadecimal, which is what
   * casting before `includes` would compare), a view is counted once per
   * viewer: the first watch adds one view and records the video, a second
   * watch changes nothing further.
   */
  lemma WatchOnce(s: State, i: nat, u: nat, videoId: string)
    requires ValidState(s) && i < |s.videos| && u < |s.users|
    requires videoId == s.videos[i].id
    ensures var t := Watch(s, i, u, videoId);
      && |t.videos| == |s.videos| && |t.users| == |s.users|
      && s.videos[i].id in t.users[u].watchHistory
      && t.videos[i].views == s.videos[i].views + (if s.videos[i].id in s.users[u].watchHistory then 0 else 1)
      && Watch(t, i, u, videoId) == t
  {
    AddToSetSpec(s.users[u].watchHistory, s.videos[i].id);
  }

  /**
   * As written, a spelling of the id that differs from the stored text (an
   * upper-case one, say) is never found by `includes`: every watch adds a
   * view, while the history, which records the cast id, stops changing.
   */
  lemma RewatchRecounts(s: State, i: nat, u: nat, videoId: string)
    requires i < |s.videos| && u < |s.users|
    requires videoId != s.videos[i].id && videoId !in s.users[u].watchHistory
    ensures var t := Watch(s, i, u, videoId);
      var t2 := Watch(t, i, u, videoId);
      && t2.videos[i].views == s.videos[i].views + 2
      && t2.users[u].watchHistory == t.users[u].watchHistory
      && s.videos[i].id in t.users[u].watchHistory
  {
    var h := s.users[u].watchHistory;
    var id := s.videos[i].id;
    assert id in AddToSet(h, id);
    assert videoId !in AddToSet(h, id);
  }

  /** Watching keeps the store's invariants. */
  lemma WatchKeepsValid(s: State, i: nat, u: nat, videoId: string)
    requires ValidState(s) && i < |s.videos| && u < |s.users|
    ensures ValidState(Watch(s, i, u, videoId))
  {
    var t := Watch(s, i, u, videoId);
    var v := s.videos[i];
    AddToSetSpec(s.users[u].watchHistory, v.id);
    UniqueByUpdate(s.videos, VideoKey, i, t.videos[i]);
    var nu := t.users[u];
    UniqueByUpdate(s.users, UserKey, u, nu);
    UniqueByUpdate(s.users, UsernameKey, u, nu);
    UniqueByUpdate(s.users, EmailKey, u, nu);
    assert forall k :: 0 <= k < |t.users| ==> UserNormal(t.users[k]) by {
      forall k | 0 <= k < |t.users| ensures UserNormal(t.users[k]) {
        assert k != u ==> t.users[k] == s.users[k];
      }
    }
  }

  /**
   * `getVideoById`: 400 for a malformed id; a missing video, or a viewer
   * missing from the store, fails on a property read (500); otherwise the
   * answer is computed before the view is counted, and the store is
   * updated as `Watch` says for the id as spelled in the route.
   */
  method GetVideoById(db: Db, me: Id, videoId: string) returns (r: Outcome<VideoView>)
    requires db.Valid()
    modifies db
    ensures db.Valid()
    ensures !IsValidObjectId(videoId) ==> r == Err(BadRequest)
    ensures IsValidObjectId(videoId) ==>
      match (FindVideo(old(db.videos), CastId(videoId)), FindUser(old(db.users), me))
      case (None, _) => r == Err(ServerError)
      case (_, None) => r == Err(ServerError)
      case (Some(i), Some(u)) =>
        && r == Ok(ViewVideo(old(db.Snapshot()), me, old(db.videos)[i]))
        && db.Snapshot() == Watch(old(db.Snapshot()), i, u, videoId)
    ensures r.Err? ==> db.Snapshot() == old(db.Snapshot())
  {
    if !IsValidObjectId(videoId) {
      return Err(BadRequest);
    }
    var found := FindVideo(db.videos, CastId(videoId));
    if found.None? {
      return Err(ServerError);
    }
    var i := found.value;
    var view := ViewVideo(db.Snapshot(), me, db.videos[i]);
    var viewer := FindUser(db.users, me);
    if viewer.None? {
      return Err(ServerError);
    }
    var u := viewer.value;
    WatchKeepsValid(db.Snapshot(), i, u, videoId);
    var t := Watch(db.Snapshot(), i, u, videoId);
    db.videos := t.videos;
    db.users := t.users;
    assert db.Snapshot() == t;
    r := Ok(view);
  }

  // ---------------------------------------------------------------------
  // updateVideo, deleteVideo

  /**
   * `updateVideo`: 401 without title or description; a malformed id fails
   * to cast (500); 404 when missing, 401 when someone else's; 400 without a
   * thumbnail file, 401 when its upload fails, 500 when removing the old
   * thumbnail fails; otherwise sets title, description and thumbnail and
   * answers the updated video.
   */
  method UpdateVideo(
    db: Db, me: Id, videoId: string, title: Option<string>, description: Option<string>,
    thumbnailPath: Option<string>, thumbnailAnswer: Option<Uploaded>, destroyAnswer: DestroyAnswer)
    returns (r: Outcome<Video>)
    requires db.Valid()
    modifies db
    ensures db.Valid()
    ensures !Truthy(title) || !Truthy(description) ==> r == Err(Unauthorized)
    ensures Truthy(title) && Truthy(description) && !IsValidObjectId(videoId) ==> r == Err(ServerError)
    ensures Truthy(title) && Truthy(description) && IsValidObjectId(videoId) ==>
      match FindVideo(old(db.videos), CastId(videoId))
      case None => r == Err(NotFound)
      case Some(i) =>
        var v := old(db.videos)[i];
        if v.owner != me then r == Err(Unauthorized)
        else if !Truthy(thumbnailPath) then r == Err(BadRequest)
        else if thumbnailAnswer.None? then r == Err(Unauthorized)
        else if DeleteOnCloud(Some(v.thumbnail), destroyAnswer).Err? then r == Err(ServerError)
        else
          && r == Ok(v.(title := title.value, description := description.value, thumbnail := thumbnailAnswer.value.url))
          && db.Snapshot() == old(db.Snapshot()).(videos := old(db.videos)[i := r.value])
    ensures r.Err? ==> db.Snapshot() == old(db.Snapshot())
  {
    if !Truthy(title) || !Truthy(description) {
      return Err(Unauthorized);
    }
    if !IsValidObjectId(videoId) {
      return Err(ServerError);
    }
    var found := FindVideo(db.videos, CastId(videoId));
    if found.None? {
      return Err(NotFound);
    }
    var i := found.value;
    var v := db.videos[i];
    if v.owner != me {
      return Err(Unauthorized);
    }
    if !Truthy(thumbnailPath) {
      return Err(BadRequest);
    }
    var thumbnail := UploadOnCloud(thumbnailPath, thumbnailAnswer);
    if thumbnail.None? {
      return Err(Unauthorized);
    }
    var removed := DeleteOnCloud(Some(v.thumbnail), destroyAnswer);
    if removed.Err? {
      return Err(ServerError);
    }
    var updated := v.(title := title.value, description := description.value, thumbnail := thumbnail.value.url);
    UniqueByUpdate(db.videos, VideoKey, i, updated);
    db.videos := db.videos[i := updated];
    r := Ok(updated);
  }

  /**
   * `deleteVideo`: 401 for a malformed id, a missing video or someone
   * else's; a video without a file raises a plain error (500), and so does
   * a failed removal from storage; otherwise only the `videoFile` field is
   * unset: the document itself stays.
   */
  method DeleteVideo(db: Db, me: Id, videoId: string, destroyAnswer: DestroyAnswer) returns (r: Outcome<()>)
    requires db.Valid()
    modifies db
    ensures db.Valid()
    ensures !IsValidObjectId(videoId) ==> r == Err(Unauthorized)
    ensures IsValidObjectId(videoId) ==>
      match FindVideo(old(db.videos), CastId(videoId))
      case None => r == Err(Unauthorized)
      case Some(i) =>
        var v := old(db.videos)[i];
        if v.owner != me then r == Err(Unauthorized)
        else if !Truthy(v.videoFile) then r == Err(ServerError)
        else if DeleteOnCloud(v.videoFile, destroyAnswer).Err? then r == Err(ServerError)
        else r == Ok(()) && db.Snapshot() == old(db.Snapshot()).(videos := old(db.videos)[i := v.(videoFile := None)])
    ensures r.Err? ==> db.Snapshot() == old(db.Snapshot())
  {
    if !IsValidObjectId(videoId) {
      return Err(Unauthorized);
    }
    var found := FindVideo(db.videos, CastId(videoId));
    if found.None? {
      return Err(Unauthorized);
    }
    var i := found.value;
    var v := db.videos[i];
    if v.owner != me {
      return Err(Unauthorized);
    }
    if !Truthy(v.videoFile) {
      return Err(ServerError);
    }
    var removed := DeleteOnCloud(v.videoFile, destroyAnswer);
    if removed.Err? {
      return Err(ServerError);
    }
    UniqueByUpdate(db.videos, VideoKey, i, v.(videoFile := None));
    db.videos := db.videos[i := v.(videoFile := None)];
    r := Ok(());
  }

  /** After a delete the video's id is still found, with no file: the next delete of it fails with 500. */
  lemma DeleteKeepsDocument(videos: seq<Video>, i: nat, answer: DestroyAnswer)
    requires UniqueBy(videos, VideoKey) && i < |videos|
    ensures var after := videos[i := videos[i].(videoFile := None)];
      && FindVideo(after, videos[i].id) == Some(i)
      && !Truthy(after[i].videoFile)
  {
    var after := videos[i := videos[i].(videoFile := None)];
    assert after[i].id == videos[i].id;
    var k := FindVideo(after, videos[i].id).value;
    UniqueByUpdate(videos, VideoKey, i, after[i]);
    UniqueFind(after, VideoKey, k, i);
  }

  // ---------------------------------------------------------------------
  // togglePublishStatus

  function FlipPublished(videos: seq<Video>, i: nat): (r: seq<Video>)
    requires i < |videos|
    ensures |r| == |videos| && r[i].isPublished == !videos[i].isPublished
    ensures r[i] == videos[i].(isPublished := r[i].isPublished)
    ensures forall j :: 0 <= j < |videos| && j != i ==> r[j] == videos[j]
  {
    videos[i := videos[i].(isPublished := !videos[i].isPublished)]
  }

  /** Flipping twice gives back the original videos. */
  lemma FlipTwice(videos: seq<Video>, i: nat)
    requires i < |videos|
    ensures FlipPublished(FlipPublished(videos, i), i) == videos
  {
    assert FlipPublished(FlipPublished(videos, i), i)[i] == videos[i];
  }

  /**
   * `togglePublishStatus`: 400 for a malformed id or a missing video; no
   * ownership check; otherwise flips the flag and answers its new value.
   */
  method TogglePublishStatus(db: Db, videoId: string) returns (r: Outcome<bool>)
    requires db.Valid()
    modifies db
    ensures db.Valid()
    ensures !IsValidObjectId(videoId) ==> r == Err(BadRequest)
    ensures IsValidObjectId(videoId) ==>
      match FindVideo(old(db.videos), CastId(videoId))
      case None => r == Err(BadRequest)
      case Some(i) =>
        && r == Ok(!old(db.videos)[i].isPublished)
        && db.Snapshot() == old(db.Snapshot()).(videos := FlipPublished(old(db.videos), i))
    ensures r.Err? ==> db.Snapshot() == old(db.Snapshot())
  {
    if !IsValidObjectId(videoId) {
      return Err(BadRequest);
    }
    var found := FindVideo(db.videos, CastId(videoId));
    if found.None? {
      return Err(BadRequest);
    }
    var i := found.value;
    UniqueByUpdate(db.videos, VideoKey, i, FlipPublished(db.videos, i)[i]);
    db.videos := FlipPublished(db.videos, i);
    r := Ok(db.videos[i].isPublished);
  }
}
