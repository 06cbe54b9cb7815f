/**
 * The database the controllers share: the seven collections, each held in
 * natural (insertion) order, and the invariants the unique indexes and the
 * controllers' own checks maintain.
 */
module Store {
  import opened Common
  import opened Entities
  import opened Docs
  import opened UserModel

  /** The contents of every collection at one instant. */
  datatype State = State(
    users: seq<User>,
    videos: seq<Video>,
    comments: seq<Comment>,
    likes: seq<Like>,
    subscriptions: seq<Subscription>,
    tweets: seq<Tweet>,
    playlists: seq<Playlist>)

  ghost predicate NoDuplicates<T>(s: seq<T>) {
    forall i, j :: 0 <= i < j < |s| ==> s[i] != s[j]
  }

  /** Usernames and emails are stored normalised, full names trimmed. */
  ghost predicate UserNormal(u: User) {
    NormalForm(u.username) && NormalForm(u.email) && Trimmed(u.fullname)
  }

  /**
   * The invariants: every `_id` is unique in its collection; usernames and
   * emails are unique (the schema's unique indexes) and stored normalised;
   * a user likes a target at most once and subscribes to a channel at most
   * once, and never to their own channel (the toggles keep this); a watch history and a playlist's video
   * list hold no repeats (`$addToSet` keeps this).
   */
  ghost predicate ValidState(s: State) {
    && UniqueBy(s.users, UserKey)
    && UniqueBy(s.users, UsernameKey)
    && UniqueBy(s.users, EmailKey)
    && (forall i :: 0 <= i < |s.users| ==> UserNormal(s.users[i]))
    && (forall i :: 0 <= i < |s.users| ==> NoDuplicates(s.users[i].watchHistory))
    && UniqueBy(s.videos, VideoKey)
    && UniqueBy(s.comments, CommentKey)
    && UniqueBy(s.likes, LikeKey)
    && UniqueBy(s.likes, LikeEdge)
    && UniqueBy(s.subscriptions, SubscriptionKey)
    && UniqueBy(s.subscriptions, SubscriptionEdge)
    && (forall i :: 0 <= i < |s.subscriptions| ==> s.subscriptions[i].channel != s.subscriptions[i].subscriber)
    && UniqueBy(s.tweets, TweetKey)
    && UniqueBy(s.playlists, PlaylistKey)
    && (forall i :: 0 <= i < |s.playlists| ==> NoDuplicates(s.playlists[i].videos))
  }

  class Db {
    var users: seq<User>
    var videos: seq<Video>
    var comments: seq<Comment>
    var likes: seq<Like>
    var subscriptions: seq<Subscription>
    var tweets: seq<Tweet>
    var playlists: seq<Playlist>

    function Snapshot(): State
      reads this
    {
      State(users, videos, comments, likes, subscriptions, tweets, playlists)
    }

    ghost predicate Valid()
      reads this
    {
      ValidState(Snapshot())
    }

    constructor ()
      ensures Snapshot() == State([], [], [], [], [], [], [])
      ensures Valid()
    {
      users, videos, comments, likes := [], [], [], [];
      subscriptions, tweets, playlists := [], [], [];
    }
  }

  // ---------------------------------------------------------------------
  // Lookups by `_id`

  function UserHasId(id: Id): User -> bool { (u: User) => u.id == id }
  function VideoHasId(id: Id): Video -> bool { (v: Video) => v.id == id }
  function CommentHasId(id: Id): Comment -> bool { (c: Comment) => c.id == id }
  function TweetHasId(id: Id): Tweet -> bool { (t: Tweet) => t.id == id }
  function PlaylistHasId(id: Id): Playlist -> bool { (p: Playlist) => p.id == id }

  /** `findById` on users. */
  function FindUser(users: seq<User>, id: Id): (r: Option<nat>)
    ensures r.Some? ==> r.value < |users| && users[r.value].id == id
    ensures r.None? <==> forall j :: 0 <= j < |users| ==> users[j].id != id
  {
    Find(users, UserHasId(id))
  }

  function FindVideo(videos: seq<Video>, id: Id): (r: Option<nat>)
    ensures r.Some? ==> r.value < |videos| && videos[r.value].id == id
    ensures r.None? <==> forall j :: 0 <= j < |videos| ==> videos[j].id != id
  {
    Find(videos, VideoHasId(id))
  }

  function FindComment(comments: seq<Comment>, id: Id): (r: Option<nat>)
    ensures r.Some? ==> r.value < |comments| && comments[r.value].id == id
    ensures r.None? <==> forall j :: 0 <= j < |comments| ==> comments[j].id != id
  {
    Find(comments, CommentHasId(id))
  }

  function FindTweet(tweets: seq<Tweet>, id: Id): (r: Option<nat>)
    ensures r.Some? ==> r.value < |tweets| && tweets[r.value].id == id
    ensures r.None? <==> forall j :: 0 <= j < |tweets| ==> tweets[j].id != id
  {
    Find(tweets, TweetHasId(id))
  }

  function FindPlaylist(playlists: seq<Playlist>, id: Id): (r: Option<nat>)
    ensures r.Some? ==> r.value < |playlists| && playlists[r.value].id == id
    ensures r.None? <==> forall j :: 0 <= j < |playlists| ==> playlists[j].id != id
  {
    Find(playlists, PlaylistHasId(id))
  }

  /** Under a unique index, the document with a given key is the one `findById` returns. */
  lemma UniqueFind<T>(s: seq<T>, key: T -> Id, i: nat, j: nat)
    requires UniqueBy(s, key) && i < |s| && j < |s| && key(s[i]) == key(s[j])
    ensures i == j
  {
  }

  /** Replacing one document by another with the same key keeps a unique index. */
  lemma UniqueByUpdate<T, K>(s: seq<T>, key: T -> K, i: nat, x: T)
    requires UniqueBy(s, key) && i < |s| && key(x) == key(s[i])
    ensures UniqueBy(s[i := x], key)
  {
  }

  /**
   * Replacing a user by one with the same id, in normal form, whose username
   * and email no other user holds, keeps the store's invariants.
   */
  lemma ReplaceUserKeepsValid(s: State, k: nat, u: User)
    requires ValidState(s) && k < |s.users|
    requires u.id == s.users[k].id && UserNormal(u) && NoDuplicates(u.watchHistory)
    requires forall j :: 0 <= j < |s.users| && j != k ==> s.users[j].username != u.username && s.users[j].email != u.email
    ensures ValidState(s.(users := s.users[k := u]))
  {
    var t := s.users[k := u];
    assert forall j :: 0 <= j < |t| ==> UserNormal(t[j]) && NoDuplicates(t[j].watchHistory) by {
      forall j | 0 <= j < |t| ensures UserNormal(t[j]) && NoDuplicates(t[j].watchHistory) {
        assert j != k ==> t[j] == s.users[j];
      }
    }
  }

  /** Appending a document with an unused key keeps a unique index. */
  lemma UniqueByAppend<T, K>(s: seq<T>, key: T -> K, x: T)
    requires UniqueBy(s, key) && KeyAbsent(s, key, key(x))
    ensures UniqueBy(s + [x], key)
  {
  }

  /** Removing a document keeps a unique index. */
  lemma UniqueByRemove<T, K>(s: seq<T>, key: T -> K, i: nat)
    requires UniqueBy(s, key) && i < |s|
    ensures UniqueBy(RemoveAt(s, i), key)
  {
    var r := RemoveAt(s, i);
    forall a, b | 0 <= a < b < |r|
      ensures key(r[a]) != key(r[b])
    {
      var a' := if a < i then a else a + 1;
      var b' := if b < i then b else b + 1;
      assert r[a] == s[a'] && r[b] == s[b'];
    }
  }

  /** Dropping elements (`$pull`) keeps a list free of repeats. */
  lemma {:induction false} NoDuplicatesFilter<T>(s: seq<T>, p: T -> bool)
    requires NoDuplicates(s)
    ensures NoDuplicates(Filter(s, p))
    decreases |s|
  {
    if |s| > 0 {
      var init := s[..|s| - 1];
      var last := s[|s| - 1];
      NoDuplicatesFilter(init, p);
      if p(last) {
        var f := Filter(init, p);
        assert last !in init by {
          forall k | 0 <= k < |init|
            ensures init[k] != last
          {
            assert init[k] == s[k];
          }
        }
        assert last !in f;
        forall a | 0 <= a < |f|
          ensures (f + [last])[a] != last
        {
          assert f[a] in f;
        }
      }
    }
  }

  /**
   * `findByIdAndDelete` under a unique index: the removed key is gone, and
   * every other document is still there.
   */
  lemma RemoveByKey<T, K>(s: seq<T>, key: T -> K, i: nat)
    requires UniqueBy(s, key) && i < |s|
    ensures KeyAbsent(RemoveAt(s, i), key, key(s[i]))
    ensures forall j :: 0 <= j < |s| && j != i ==> s[j] in RemoveAt(s, i)
    ensures forall x :: x in RemoveAt(s, i) ==> x in s
  {
    var r := RemoveAt(s, i);
    forall j | 0 <= j < |s| && j != i
      ensures s[j] in r
    {
      if j < i { assert r[j] == s[j]; } else { assert r[j - 1] == s[j]; }
    }
    forall j | 0 <= j < |r|
      ensures key(r[j]) != key(s[i])
    {
      if j < i { assert r[j] == s[j]; } else { assert r[j] == s[j + 1]; }
    }
  }

  // ---------------------------------------------------------------------
  // The list updates: `$addToSet` and `$pull`

  /** `$addToSet`: append the id unless it is already in the list. */
  function AddToSet(list: seq<Id>, v: Id): (r: seq<Id>)
    ensures v in r
    ensures forall x :: x in r <==> x in list || x == v
  {
    if v in list then list else list + [v]
  }

  function IsNot(v: Id): Id -> bool { (x: Id) => x != v }

  /** `$pull`: remove every occurrence of the id. */
  function Pull(list: seq<Id>, v: Id): (r: seq<Id>)
    ensures v !in r
    ensures forall x :: x in r <==> x in list && x != v
  {
    var r := Filter(list, IsNot(v));
    FilterComplete(list, IsNot(v));
    r
  }

  /** Adding keeps a list free of repeats; adding twice is adding once. */
  lemma AddToSetSpec(list: seq<Id>, v: Id)
    requires NoDuplicates(list)
    ensures NoDuplicates(AddToSet(list, v))
    ensures AddToSet(AddToSet(list, v), v) == AddToSet(list, v)
    ensures |AddToSet(list, v)| == if v in list then |list| else |list| + 1
  {
    if v !in list {
      var r := list + [v];
      forall a, b | 0 <= a < b < |r| ensures r[a] != r[b] {
        if b == |list| { assert r[a] == list[a] && list[a] in list; }
      }
    }
  }

  /** Removing an id that was just added to a list lacking it gives back the list. */
  lemma {:induction false} PullUndoesAdd(list: seq<Id>, v: Id)
    requires v !in list
    ensures Pull(AddToSet(list, v), v) == list
  {
    FilterKeepsAll(list, IsNot(v));
    FilterAppend(list, [v], IsNot(v));
    assert [v][..0] == [];
  }


  /**
   * `$pull` keeps the remaining ids in their order: it works piece by piece
   * over a concatenation, drops the id itself and keeps any other.
   */
  lemma PullKeepsOrder(a: seq<Id>, b: seq<Id>, v: Id, x: Id)
    ensures Pull(a + b, v) == Pull(a, v) + Pull(b, v)
    ensures Pull([], v) == []
    ensures Pull([x], v) == if x == v then [] else [x]
  {
    FilterAppend(a, b, IsNot(v));
    assert [x][..0] == [];
  }

  /** Removing keeps a list free of repeats, and removing twice is removing once. */
  lemma PullSpec(list: seq<Id>, v: Id)
    requires NoDuplicates(list)
    ensures NoDuplicates(Pull(list, v))
    ensures Pull(Pull(list, v), v) == Pull(list, v)
  {
    NoDuplicatesFilter(list, IsNot(v));
    var r := Pull(list, v);
    FilterKeepsAll(r, IsNot(v));
  }
}
