/**
 * src/controllers/playlist.controllers.js: creating, listing, reading,
 * editing and deleting playlists, and adding and removing their videos.
 */
module Playlists {
  import opened Common
  import opened Entities
  import opened Docs
  import opened Store

  // ---------------------------------------------------------------------
  // createPlaylist

  /** `createPlaylist`: 400 unless both name and description are given; the new playlist is empty. */
  method CreatePlaylist(db: Db, me: Id, name: Option<string>, description: Option<string>, newId: Id, now: nat)
    returns (r: Outcome<Playlist>)
    requires db.Valid() && KeyAbsent(db.playlists, PlaylistKey, newId)
    modifies db
    ensures db.Valid()
    ensures !Truthy(name) || !Truthy(description) ==> r == Err(BadRequest) && db.Snapshot() == old(db.Snapshot())
    ensures Truthy(name) && Truthy(description) ==>
      && r == Ok(Playlist(newId, name.value, description.value, me, [], now))
      && db.Snapshot() == old(db.Snapshot()).(playlists := old(db.playlists) + [r.value])
  {
    if !Truthy(name) || !Truthy(description) {
      return Err(BadRequest);
    }
    var p := Playlist(newId, name.value, description.value, me, [], now);
    UniqueByAppend(db.playlists, PlaylistKey, p);
    db.playlists := db.playlists + [p];
    r := Ok(p);
  }

  // ---------------------------------------------------------------------
  // getUserPlaylists

  /** A playlist with the figures the pipeline adds. */
  datatype PlaylistSummary = PlaylistSummary(
    id: Id,
    name: string,
    description: string,
    owner: Id,
    totalVideos: nat,
    totalViews: nat,
    createdAt: nat)

  function VideoIdIn(list: seq<Id>): Video -> bool { (v: Video) => v.id in list }

  function Views(v: Video): nat { v.views }

  function PlaylistOwnedBy(owner: Id): Playlist -> bool { (p: Playlist) => p.owner == owner }

  /** `$lookup` of a playlist's videos: the stored videos whose id is in its list, in natural order. */
  function PlaylistVideos(s: State, p: Playlist): seq<Video> {
    Filter(s.videos, VideoIdIn(p.videos))
  }

  function Summarise(s: State): Playlist -> PlaylistSummary {
    (p: Playlist) =>
      var vs := PlaylistVideos(s, p);
      PlaylistSummary(p.id, p.name, p.description, p.owner, |vs|, Sum(vs, Views), p.createdAt)
  }

  /** `getUserPlaylists`: 400 for a malformed id; otherwise a summary of each of the user's playlists. */
  function GetUserPlaylists(s: State, userId: string): (r: Outcome<seq<PlaylistSummary>>)
    ensures !IsValidObjectId(userId) ==> r == Err(BadRequest)
    ensures IsValidObjectId(userId) ==>
      && r.Ok? && |r.value| == Count(s.playlists, PlaylistOwnedBy(CastId(userId)))
      && forall i :: 0 <= i < |r.value| ==> r.value[i].owner == CastId(userId)
  {
    if !IsValidObjectId(userId) then Err(BadRequest)
    else
      var f := Filter(s.playlists, PlaylistOwnedBy(CastId(userId)));
      FilterComplete(s.playlists, PlaylistOwnedBy(CastId(userId)));
      assert forall i :: 0 <= i < |f| ==> f[i] in f;
      Ok(Map(f, Summarise(s)))
  }

  /**
   * A summary counts the stored videos whose id is listed, whatever the
   * list's order or repeats: two lists with the same ids give the same figures.
   */
  lemma SummaryIgnoresOrder(s: State, p: Playlist, q: Playlist)
    requires forall x :: x in p.videos <==> x in q.videos
    ensures Summarise(s)(p).totalVideos == Summarise(s)(q).totalVideos
    ensures Summarise(s)(p).totalViews == Summarise(s)(q).totalViews
  {
    FilterSameOn(s.videos, VideoIdIn(p.videos), VideoIdIn(q.videos));
  }


  /** Each summary's total counts exactly the stored videos the playlist lists. */
  lemma SummaryCounts(s: State, p: Playlist)
    ensures Summarise(s)(p).totalVideos == Count(s.videos, VideoIdIn(p.videos))
    ensures p.videos == [] ==> Summarise(s)(p).totalVideos == 0 && Summarise(s)(p).totalViews == 0
  {
    FilterComplete(s.videos, VideoIdIn(p.videos));
    if p.videos == [] {
      CountBounds(s.videos, VideoIdIn(p.videos));
    }
  }

  // ---------------------------------------------------------------------
  // getPlaylistById, and the populated list the add and remove answer

  /** The video fields `populate` selects. */
  datatype PlaylistVideo = PlaylistVideo(
    id: Id,
    videoFile: Option<string>,
    thumbnail: string,
    title: string,
    views: nat,
    isPublished: bool,
    owner: Id,
    createdAt: nat,
    duration: Option<real>)

  function Entry(v: Video): PlaylistVideo {
    PlaylistVideo(v.id, v.videoFile, v.thumbnail, v.title, v.views, v.isPublished, v.owner, v.createdAt, v.duration)
  }

  /** `populate("videos")`: each listed id replaced by its video, in list order; ids of missing videos drop out. */
  function Populate(videos: seq<Video>, list: seq<Id>): (r: seq<PlaylistVideo>)
    ensures |r| <= |list|
  {
    if |list| == 0 then []
    else
      Populate(videos, list[..|list| - 1])
      + match FindVideo(videos, list[|list| - 1]) case None => [] case Some(i) => [Entry(videos[i])]
  }

  /** A listed id names a stored video. */
  function IdStored(videos: seq<Video>): Id -> bool {
    (id: Id) => FindVideo(videos, id).Some?
  }

  /** The populated list has one entry per listed id that names a stored video. */
  lemma {:induction false} PopulateLength(videos: seq<Video>, list: seq<Id>)
    ensures |Populate(videos, list)| == Count(list, IdStored(videos))
    decreases |list|
  {
    if |list| > 0 {
      PopulateLength(videos, list[..|list| - 1]);
    }
  }

  /** The populated list holds exactly the listed videos that exist. */
  lemma {:induction false} PopulateSpec(videos: seq<Video>, list: seq<Id>)
    requires UniqueBy(videos, VideoKey)
    ensures forall e :: e in Populate(videos, list) <==> exists v :: v in videos && v.id in list && e == Entry(v)
    decreases |list|
  {
    if |list| > 0 {
      var init := list[..|list| - 1];
      var last := list[|list| - 1];
      PopulateSpec(videos, init);
      assert list == init + [last];
      forall v | v in videos && v.id == last
        ensures FindVideo(videos, last) .Some? && videos[FindVideo(videos, last).value] == v
      {
        var j :| 0 <= j < |videos| && videos[j] == v;
        UniqueFind(videos, VideoKey, FindVideo(videos, last).value, j);
      }
      if FindVideo(videos, last).Some? {
        assert videos[FindVideo(videos, last).value] in videos;
      }
    }
  }

  datatype PopulatedPlaylist = PopulatedPlaylist(
    id: Id,
    name: string,
    description: string,
    owner: Id,
    videos: seq<PlaylistVideo>,
    createdAt: nat)

  function PopulatePlaylist(videos: seq<Video>, p: Playlist): PopulatedPlaylist {
    PopulatedPlaylist(p.id, p.name, p.description, p.owner, Populate(videos, p.videos), p.createdAt)
  }

  /** `getPlaylistById`: 400 for a malformed id, 404 when missing; otherwise the playlist, populated. */
  function GetPlaylistById(s: State, playlistId: string): (r: Outcome<PopulatedPlaylist>)
    ensures !IsValidObjectId(playlistId) ==> r == Err(BadRequest)
    ensures IsValidObjectId(playlistId) && (forall i :: 0 <= i < |s.playlists| ==> s.playlists[i].id != CastId(playlistId)) ==>
      r == Err(NotFound)
    ensures r.Ok? ==> exists i :: (0 <= i < |s.playlists| && s.playlists[i].id == CastId(playlistId)
      && r.value == PopulatePlaylist(s.videos, s.playlists[i]))
    ensures IsValidObjectId(playlistId) && (exists i :: 0 <= i < |s.playlists| && s.playlists[i].id == CastId(playlistId)) ==> r.Ok?
  {
    if !IsValidObjectId(playlistId) then Err(BadRequest)
    else match FindPlaylist(s.playlists, CastId(playlistId))
      case None => Err(NotFound)
      case Some(i) => Ok(PopulatePlaylist(s.videos, s.playlists[i]))
  }

  // ---------------------------------------------------------------------
  // addVideoToPlaylist, removeVideoFromPlaylist

  /** The checks the add and the remove share, in their order: ids, playlist, video, owner. */
  function EditGuard(s: State, me: Id, playlistId: string, videoId: string): (r: Outcome<nat>)
    ensures r.Ok? ==> (r.value < |s.playlists| && s.playlists[r.value].id == CastId(playlistId)
      && s.playlists[r.value].owner == me
      && exists j :: 0 <= j < |s.videos| && s.videos[j].id == CastId(videoId))
    ensures !IsValidObjectId(playlistId) || !IsValidObjectId(videoId) ==> r == Err(BadRequest)
    ensures IsValidObjectId(playlistId) && IsValidObjectId(videoId) ==>
      (FindPlaylist(s.playlists, CastId(playlistId)).None? || FindVideo(s.videos, CastId(videoId)).None? ==> r == Err(NotFound))
    ensures (
      && IsValidObjectId(playlistId) && IsValidObjectId(videoId)
      && FindPlaylist(s.playlists, CastId(playlistId)).Some? && FindVideo(s.videos, CastId(videoId)).Some?) ==>
      var i := FindPlaylist(s.playlists, CastId(playlistId)).value;
      && (s.playlists[i].owner != me ==> r == Err(Unauthorized))
      && (s.playlists[i].owner == me ==> r == Ok(i))
  {
    if !IsValidObjectId(playlistId) || !IsValidObjectId(videoId) then Err(BadRequest)
    else match FindPlaylist(s.playlists, CastId(playlistId))
      case None => Err(NotFound)
      case Some(i) =>
        if FindVideo(s.videos, CastId(videoId)).None? then Err(NotFound)
        else if s.playlists[i].owner != me then Err(Unauthorized)
        else Ok(i)
  }

  /** `addVideoToPlaylist`: after the checks, `$addToSet`, answering the populated list. */
  method AddVideoToPlaylist(db: Db, me: Id, playlistId: string, videoId: string) returns (r: Outcome<seq<PlaylistVideo>>)
    requires db.Valid()
    modifies db
    ensures db.Valid()
    ensures EditGuard(old(db.Snapshot()), me, playlistId, videoId).Err? ==>
      && r == Err(EditGuard(old(db.Snapshot()), me, playlistId, videoId).status)
      && db.Snapshot() == old(db.Snapshot())
    ensures EditGuard(old(db.Snapshot()), me, playlistId, videoId).Ok? ==>
      var i := EditGuard(old(db.Snapshot()), me, playlistId, videoId).value;
      var p := old(db.playlists)[i].(videos := AddToSet(old(db.playlists)[i].videos, CastId(videoId)));
      && db.Snapshot() == old(db.Snapshot()).(playlists := old(db.playlists)[i := p])
      && r == Ok(Populate(db.videos, p.videos))
  {
    var guard := EditGuard(db.Snapshot(), me, playlistId, videoId);
    if guard.Err? {
      return Err(guard.status);
    }
    var i := guard.value;
    var p := db.playlists[i].(videos := AddToSet(db.playlists[i].videos, CastId(videoId)));
    AddToSetSpec(db.playlists[i].videos, CastId(videoId));
    UniqueByUpdate(db.playlists, PlaylistKey, i, p);
    db.playlists := db.playlists[i := p];
    r := Ok(Populate(db.videos, p.videos));
  }

  /** `removeVideoFromPlaylist`: after the same checks, `$pull`, answering the populated list. */
  method RemoveVideoFromPlaylist(db: Db, me: Id, playlistId: string, videoId: string) returns (r: Outcome<seq<PlaylistVideo>>)
    requires db.Valid()
    modifies db
    ensures db.Valid()
    ensures EditGuard(old(db.Snapshot()), me, playlistId, videoId).Err? ==>
      && r == Err(EditGuard(old(db.Snapshot()), me, playlistId, videoId).status)
      && db.Snapshot() == old(db.Snapshot())
    ensures EditGuard(old(db.Snapshot()), me, playlistId, videoId).Ok? ==>
      var i := EditGuard(old(db.Snapshot()), me, playlistId, videoId).value;
      var p := old(db.playlists)[i].(videos := Pull(old(db.playlists)[i].videos, CastId(videoId)));
      && db.Snapshot() == old(db.Snapshot()).(playlists := old(db.playlists)[i := p])
      && r == Ok(Populate(db.videos, p.videos))
  {
    var guard := EditGuard(db.Snapshot(), me, playlistId, videoId);
    if guard.Err? {
      return Err(guard.status);
    }
    var i := guard.value;
    var p := db.playlists[i].(videos := Pull(db.playlists[i].videos, CastId(videoId)));
    PullSpec(db.playlists[i].videos, CastId(videoId));
    UniqueByUpdate(db.playlists, PlaylistKey, i, p);
    db.playlists := db.playlists[i := p];
    r := Ok(Populate(db.videos, p.videos));
  }

  /** After an add the added video is in the populated answer; after a remove it is not. */
  lemma EditAnswers(videos: seq<Video>, list: seq<Id>, v: Video)
    requires UniqueBy(videos, VideoKey) && v in videos
    ensures Entry(v) in Populate(videos, AddToSet(list, v.id))
    ensures Entry(v) !in Populate(videos, Pull(list, v.id))
  {
    PopulateSpec(videos, AddToSet(list, v.id));
    PopulateSpec(videos, Pull(list, v.id));
  }

  // ---------------------------------------------------------------------
  // deletePlaylist, updatePlaylist

  /**
   * `deletePlaylist`: 400 for an empty id, 500 for a malformed one (the
   * cast fails), 400 when missing or someone else's; otherwise removed.
   */
  method DeletePlaylist(db: Db, me: Id, playlistId: string) returns (r: Outcome<()>)
    requires db.Valid()
    modifies db
    ensures db.Valid()
    ensures playlistId == "" ==> r == Err(BadRequest)
    ensures playlistId != "" && !IsValidObjectId(playlistId) ==> r == Err(ServerError)
    ensures IsValidObjectId(playlistId) && FindPlaylist(old(db.playlists), CastId(playlistId)).None? ==> r == Err(BadRequest)
    ensures IsValidObjectId(playlistId) && FindPlaylist(old(db.playlists), CastId(playlistId)).Some? ==>
      var i := FindPlaylist(old(db.playlists), CastId(playlistId)).value;
      if old(db.playlists)[i].owner != me then r == Err(BadRequest)
      else r == Ok(()) && db.Snapshot() == old(db.Snapshot()).(playlists := RemoveAt(old(db.playlists), i))
    ensures r.Err? ==> db.Snapshot() == old(db.Snapshot())
  {
    if playlistId == "" {
      return Err(BadRequest);
    }
    if !IsValidObjectId(playlistId) {
      return Err(ServerError);
    }
    var found := FindPlaylist(db.playlists, CastId(playlistId));
    if found.None? || db.playlists[found.value].owner != me {
      return Err(BadRequest);
    }
    var i := found.value;
    UniqueByRemove(db.playlists, PlaylistKey, i);
    db.playlists := RemoveAt(db.playlists, i);
    r := Ok(());
  }

  /**
   * `updatePlaylist`: 400 for a malformed id; a missing name or
   * description raises an error without a numeric status (500); 400 when
   * missing, 401 when someone else's; otherwise both fields are set and the
   * updated playlist answered.
   */
  method UpdatePlaylist(db: Db, me: Id, playlistId: string, name: Option<string>, description: Option<string>)
    returns (r: Outcome<Playlist>)
    requires db.Valid()
    modifies db
    ensures db.Valid()
    ensures !IsValidObjectId(playlistId) ==> r == Err(BadRequest)
    ensures IsValidObjectId(playlistId) && (!Truthy(name) || !Truthy(description)) ==> r == Err(ServerError)
    ensures IsValidObjectId(playlistId) && Truthy(name) && Truthy(description) ==>
      match FindPlaylist(old(db.playlists), CastId(playlistId))
      case None => r == Err(BadRequest)
      case Some(i) =>
        if old(db.playlists)[i].owner != me then r == Err(Unauthorized)
        else
          && r == Ok(old(db.playlists)[i].(name := name.value, description := description.value))
          && db.Snapshot() == old(db.Snapshot()).(playlists := old(db.playlists)[i := r.value])
    ensures r.Err? ==> db.Snapshot() == old(db.Snapshot())
  {
    if !IsValidObjectId(playlistId) {
      return Err(BadRequest);
    }
    if !Truthy(name) || !Truthy(description) {
      return Err(ServerError);
    }
    var found := FindPlaylist(db.playlists, CastId(playlistId));
    if found.None? {
      return Err(BadRequest);
    }
    var i := found.value;
    if db.playlists[i].owner != me {
      return Err(Unauthorized);
    }
    var p := db.playlists[i].(name := name.value, description := description.value);
    UniqueByUpdate(db.playlists, PlaylistKey, i, p);
    db.playlists := db.playlists[i := p];
    r := Ok(p);
  }
}
