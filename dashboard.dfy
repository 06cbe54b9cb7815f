/**
 * src/controllers/dashboard.controllers.js: the requester's channel
 * statistics and the list of the requester's uploads.
 */
module Dashboard {
  import opened Common
  import opened Entities
  import opened Docs
  import opened Store
  import Likes
  import Subscriptions

  function VideoOwnedBy(owner: Id): Video -> bool {
    (v: Video) => v.owner == owner
  }

  function ViewsOf(v: Video): nat { v.views }

  /** The `$size` of a video's `$lookup` of likes. */
  function LikesOn(likes: seq<Like>): Video -> nat {
    (v: Video) => Count(likes, Likes.OnTarget(OnVideo(v.id)))
  }

  /** A like on one of the given videos. */
  function OnVideoIn(ids: seq<Id>): Like -> bool {
    (l: Like) => l.target.OnVideo? && l.target.video in ids
  }

  datatype ChannelStats = ChannelStats(
    totalViews: nat,
    totalVideos: nat,
    totalLikes: nat,
    totalSubscribers: nat,
    channelSubscribers: seq<UserCard>)

  /**
   * `getChannelStats`. Either aggregate is empty when the requester has no
   * video or no subscriber, and reading a field of its missing first
   * element throws (500).
   */
  function GetChannelStats(s: State, me: Id): (r: Outcome<ChannelStats>)
    ensures r.Err? ==> r.status == ServerError
    ensures r.Ok? ==>
      && 0 < r.value.totalVideos <= |s.videos|
      && 0 < r.value.totalSubscribers <= |s.subscriptions|
      && |r.value.channelSubscribers| <= |s.users|
  {
    var mine := Filter(s.videos, VideoOwnedBy(me));
    var ids := Subscriptions.SubscriberIds(s.subscriptions, me);
    if |mine| == 0 then Err(ServerError)
    else if |ids| == 0 then Err(ServerError)
    else Ok(ChannelStats(
      Sum(mine, ViewsOf),
      |mine|,
      Sum(mine, LikesOn(s.likes)),
      |ids|,
      Map(Filter(s.users, Subscriptions.IdIn(ids)), Card)))
  }

  /**
   * The statistics exist exactly when the requester owns a video and has a
   * subscriber; then the totals count the requester's videos and the
   * subscriptions to the requester's channel, and the total likes are the
   * likes on the requester's videos.
   */
  lemma ChannelStatsSpec(s: State, me: Id)
    requires ValidState(s)
    ensures var r := GetChannelStats(s, me);
      && (r.Ok? <==> Count(s.videos, VideoOwnedBy(me)) > 0 && Count(s.subscriptions, Subscriptions.OfChannel(me)) > 0)
      && (r.Err? ==> r.status == ServerError)
      && (r.Ok? ==>
            && r.value.totalVideos == Count(s.videos, VideoOwnedBy(me))
            && r.value.totalViews == Sum(Filter(s.videos, VideoOwnedBy(me)), ViewsOf)
            && r.value.totalSubscribers == Count(s.subscriptions, Subscriptions.OfChannel(me))
            && r.value.totalLikes == Count(s.likes, OnVideoIn(Map(Filter(s.videos, VideoOwnedBy(me)), VideoKey))))
  {
    var mine := Filter(s.videos, VideoOwnedBy(me));
    FilterComplete(s.videos, VideoOwnedBy(me));
    FilterComplete(s.subscriptions, Subscriptions.OfChannel(me));
    FilterUnique(s.videos, VideoOwnedBy(me), VideoKey);
    LikesSumIsCount(mine, s.likes);
  }

  /** The ids the total likes are counted over are exactly those of the requester's videos. */
  lemma MyVideoIds(s: State, me: Id, id: Id)
    ensures id in Map(Filter(s.videos, VideoOwnedBy(me)), VideoKey)
      <==> exists k :: 0 <= k < |s.videos| && s.videos[k].id == id && s.videos[k].owner == me
  {
    var mine := Filter(s.videos, VideoOwnedBy(me));
    var ids := Map(mine, VideoKey);
    FilterComplete(s.videos, VideoOwnedBy(me));
    if id in ids {
      var m :| 0 <= m < |ids| && ids[m] == id;
      assert mine[m] in s.videos;
    }
    if exists k :: 0 <= k < |s.videos| && s.videos[k].id == id && s.videos[k].owner == me {
      var k :| 0 <= k < |s.videos| && s.videos[k].id == id && s.videos[k].owner == me;
      assert VideoOwnedBy(me)(s.videos[k]);
      assert s.videos[k] in mine;
      var m :| 0 <= m < |mine| && mine[m] == s.videos[k];
      assert ids[m] == id;
    }
  }

  /**
   * Summing each video's like count is counting the likes on any of those
   * videos, because no two of them share an id.
   */
  lemma {:induction false} LikesSumIsCount(vs: seq<Video>, likes: seq<Like>)
    requires UniqueBy(vs, VideoKey)
    ensures Sum(vs, LikesOn(likes)) == Count(likes, OnVideoIn(Map(vs, VideoKey)))
    decreases |vs|
  {
    if |vs| == 0 {
      CountNone(likes, OnVideoIn([]));
    } else {
      var init := vs[..|vs| - 1];
      var last := vs[|vs| - 1];
      assert UniqueBy(init, VideoKey);
      LikesSumIsCount(init, likes);
      var ids := Map(init, VideoKey);
      assert Map(vs, VideoKey) == ids + [last.id];
      assert last.id !in ids by {
        forall k | 0 <= k < |ids| ensures ids[k] != last.id {
          assert ids[k] == vs[k].id;
        }
      }
      CountDisjointUnion(likes, OnVideoIn(ids), Likes.OnTarget(OnVideo(last.id)), OnVideoIn(ids + [last.id]));
    }
  }

  // ---------------------------------------------------------------------
  // getChannelVideos

  /** The `$project` of `getChannelVideos` (no `_id`). */
  datatype ChannelVideo = ChannelVideo(
    videoFile: Option<string>,
    thumbnail: string,
    views: nat,
    createdAt: nat,
    title: string,
    duration: Option<real>,
    owner: Id)

  function Project(v: Video): ChannelVideo {
    ChannelVideo(v.videoFile, v.thumbnail, v.views, v.createdAt, v.title, v.duration, v.owner)
  }

  function CreatedAt(v: Video): int { v.createdAt }

  /** The requester's videos, newest first. */
  function MyVideos(s: State, me: Id): seq<Video> {
    SortDesc(Filter(s.videos, VideoOwnedBy(me)), CreatedAt)
  }

  /** `getChannelVideos`: the requester's videos, newest first, projected. */
  function GetChannelVideos(s: State, me: Id): (r: seq<ChannelVideo>)
    ensures |r| <= |s.videos|
    ensures forall i :: 0 <= i < |r| ==> r[i].owner == me
  {
    MyVideosSpec(s, me);
    var m := MyVideos(s, me);
    assert forall i :: 0 <= i < |m| ==> m[i] in m;
    Map(m, Project)
  }

  /** `MyVideos` holds each of the requester's videos as often as it is stored, and nothing else. */
  lemma MyVideosSpec(s: State, me: Id)
    ensures var m := MyVideos(s, me);
      && |m| == Count(s.videos, VideoOwnedBy(me))
      && (forall v :: v in m <==> v in s.videos && v.owner == me)
      && SortedDesc(m, CreatedAt)
  {
    var f := Filter(s.videos, VideoOwnedBy(me));
    var m := MyVideos(s, me);
    FilterComplete(s.videos, VideoOwnedBy(me));
    forall v ensures v in m <==> v in f {
      assert v in m <==> v in multiset(m);
    }
  }

  /**
   * The list holds one entry per video the requester owns and none other,
   * every entry is the requester's, and it is newest first.
   */
  lemma ChannelVideosSpec(s: State, me: Id)
    ensures var r := GetChannelVideos(s, me);
      && |r| == Count(s.videos, VideoOwnedBy(me))
      && (forall i :: 0 <= i < |r| ==> r[i].owner == me)
      && (forall v :: v in s.videos && v.owner == me ==> Project(v) in r)
      && (forall c :: c in r ==> exists v :: v in s.videos && v.owner == me && c == Project(v))
      && (forall i, j :: 0 <= i < j < |r| ==> r[i].createdAt >= r[j].createdAt)
  {
    var m := MyVideos(s, me);
    var r := GetChannelVideos(s, me);
    MyVideosSpec(s, me);
    forall i | 0 <= i < |r| ensures r[i].owner == me {
      assert m[i] in m;
    }
    forall v | v in s.videos && v.owner == me ensures Project(v) in r {
      var i :| 0 <= i < |m| && m[i] == v;
      assert r[i] == Project(v);
    }
    forall c | c in r ensures exists v :: v in s.videos && v.owner == me && c == Project(v) {
      var i :| 0 <= i < |r| && r[i] == c;
      assert m[i] in m;
    }
    forall i, j | 0 <= i < j < |r| ensures r[i].createdAt >= r[j].createdAt {
      assert CreatedAt(m[i]) >= CreatedAt(m[j]);
    }
  }
}
