/**
 * src/controllers/tweet.controllers.js: creating, listing, editing and
 * deleting tweets.
 */
module Tweets {
  import opened Common
  import opened Entities
  import opened Docs
  import opened Store

  /** `createTweet`: 400 without content; otherwise the new tweet, owned by the requesting user. */
  method CreateTweet(db: Db, me: Id, content: Option<string>, newId: Id, now: nat) returns (r: Outcome<Tweet>)
    requires db.Valid() && KeyAbsent(db.tweets, TweetKey, newId)
    modifies db
    ensures db.Valid()
    ensures !Truthy(content) ==> r == Err(BadRequest) && db.Snapshot() == old(db.Snapshot())
    ensures Truthy(content) ==>
      && r == Ok(Tweet(newId, content.value, me, now))
      && db.Snapshot() == old(db.Snapshot()).(tweets := old(db.tweets) + [r.value])
  {
    if !Truthy(content) {
      return Err(BadRequest);
    }
    var t := Tweet(newId, content.value, me, now);
    UniqueByAppend(db.tweets, TweetKey, t);
    db.tweets := db.tweets + [t];
    r := Ok(t);
  }

  /** After a create, `findById` on the new id returns exactly the new tweet. */
  lemma CreatedTweetFound(tweets: seq<Tweet>, t: Tweet)
    requires KeyAbsent(tweets, TweetKey, t.id)
    ensures FindTweet(tweets + [t], t.id) == Some(|tweets|)
    ensures (tweets + [t])[|tweets|] == t
  {
    var r := tweets + [t];
    assert forall j :: 0 <= j < |tweets| ==> r[j] == tweets[j] && !TweetHasId(t.id)(r[j]);
    assert TweetHasId(t.id)(r[|tweets|]);
  }

  // ---------------------------------------------------------------------
  // getUserTweets

  /**
   * As written, the pipeline names a stage `$addfields`, which the database
   * rejects, so every request past the id check fails with 500.
   */
  function GetUserTweetsAsWritten(s: State, me: Id, userId: string): Outcome<seq<TweetView>> {
    if !IsValidObjectId(userId) then Err(BadRequest) else Err(ServerError)
  }

  lemma UserTweetsAlwaysFail(s: State, me: Id, userId: string)
    ensures GetUserTweetsAsWritten(s, me, userId).Err?
    ensures IsValidObjectId(userId) ==> GetUserTweetsAsWritten(s, me, userId) == Err(ServerError)
  {
  }

  /** One listed tweet: content, the owner's card, the like count, whether the requester liked it. */
  datatype TweetView = TweetView(
    id: Id,
    content: string,
    ownerDetails: Option<UserCard>,
    likesCount: nat,
    createdAt: nat,
    isLiked: bool)

  function TweetOwnedBy(owner: Id): Tweet -> bool { (t: Tweet) => t.owner == owner }

  function LikeOnTweet(tweet: Id): Like -> bool { (l: Like) => l.target == OnTweet(tweet) }

  function LikeOnTweetBy(tweet: Id, liker: Id): Like -> bool {
    (l: Like) => l.target == OnTweet(tweet) && l.likedBy == liker
  }

  function TweetCreatedAt(t: Tweet): int { t.createdAt }

  function ViewTweet(s: State, me: Id): Tweet -> TweetView {
    (t: Tweet) =>
      TweetView(
        t.id, t.content,
        match FindUser(s.users, t.owner) case None => None case Some(i) => Some(Card(s.users[i])),
        Count(s.likes, LikeOnTweet(t.id)),
        t.createdAt,
        Find(s.likes, LikeOnTweetBy(t.id, me)).Some?)
  }

  /**
   * The listing the pipeline evidently means (`$addFields`, and the tweets
   * of the user named in the route): that user's tweets, newest first, each
   * with its owner's card, its like count and whether the requester liked it.
   */
  function GetUserTweets(s: State, me: Id, userId: string): (r: Outcome<seq<TweetView>>)
    ensures !IsValidObjectId(userId) ==> r == Err(BadRequest)
    ensures IsValidObjectId(userId) ==> r.Ok? && |r.value| == Count(s.tweets, TweetOwnedBy(CastId(userId)))
  {
    if !IsValidObjectId(userId) then Err(BadRequest)
    else
      FilterComplete(s.tweets, TweetOwnedBy(CastId(userId)));
      Ok(Map(SortDesc(Filter(s.tweets, TweetOwnedBy(CastId(userId))), TweetCreatedAt), ViewTweet(s, me)))
  }

  /** The tweets the corrected pipeline lists: the user's own, newest first. */
  function UserTweetsSelected(s: State, userId: string): seq<Tweet> {
    SortDesc(Filter(s.tweets, TweetOwnedBy(CastId(userId))), TweetCreatedAt)
  }

  /** The corrected listing selects exactly the user's tweets, each once, newest first. */
  lemma UserTweetsSelection(s: State, userId: string)
    ensures var mine := UserTweetsSelected(s, userId);
      && |mine| == Count(s.tweets, TweetOwnedBy(CastId(userId)))
      && SortedDesc(mine, TweetCreatedAt)
      && (forall t :: t in s.tweets && t.owner == CastId(userId) ==> t in mine)
      && (forall t :: t in mine ==> t in s.tweets && t.owner == CastId(userId))
  {
    var f := Filter(s.tweets, TweetOwnedBy(CastId(userId)));
    var mine := SortDesc(f, TweetCreatedAt);
    FilterComplete(s.tweets, TweetOwnedBy(CastId(userId)));
    forall t | t in s.tweets && t.owner == CastId(userId)
      ensures t in mine
    {
      assert TweetOwnedBy(CastId(userId))(t);
      assert t in multiset(f);
    }
    forall t | t in mine
      ensures t in s.tweets && t.owner == CastId(userId)
    {
      assert t in multiset(f);
    }
  }

  /**
   * The `$match` as written selects the requester's tweets: the route's
   * `userId` is checked for form and otherwise ignored.
   */
  function UserTweetsMatchedAsWritten(s: State, me: Id, userId: string): seq<Tweet> {
    Filter(s.tweets, TweetOwnedBy(me))
  }

  /**
   * The written match does not depend on the user named in the route, and
   * whenever that user is not the requester and either of them has a
   * tweet, it selects other tweets than the corrected listing.
   */
  lemma UserTweetsMatchAsWritten(s: State, me: Id, userId: string, other: string, t: Tweet)
    requires t in s.tweets && CastId(userId) != me && (t.owner == me || t.owner == CastId(userId))
    ensures UserTweetsMatchedAsWritten(s, me, userId) == UserTweetsMatchedAsWritten(s, me, other)
    ensures t.owner == me ==> t in UserTweetsMatchedAsWritten(s, me, userId) && t !in UserTweetsSelected(s, userId)
    ensures t.owner == CastId(userId) ==> t !in UserTweetsMatchedAsWritten(s, me, userId) && t in UserTweetsSelected(s, userId)
    ensures UserTweetsMatchedAsWritten(s, me, userId) != UserTweetsSelected(s, userId)
  {
    UserTweetsSelection(s, userId);
    FilterComplete(s.tweets, TweetOwnedBy(me));
    if t.owner == me {
      assert TweetOwnedBy(me)(t);
    }
  }

  /** Each view carries its tweet's like count and whether the requester is among the likers. */
  lemma UserTweetsViews(s: State, me: Id, userId: string)
    requires IsValidObjectId(userId)
    ensures GetUserTweets(s, me, userId).Ok?
    ensures var r := GetUserTweets(s, me, userId).value;
      var mine := UserTweetsSelected(s, userId);
      && |r| == |mine|
      && forall i :: 0 <= i < |r| ==>
        && r[i].id == mine[i].id && r[i].content == mine[i].content
        && r[i].likesCount == Count(s.likes, LikeOnTweet(mine[i].id))
        && (r[i].isLiked <==> exists k :: 0 <= k < |s.likes| && s.likes[k].target == OnTweet(mine[i].id) && s.likes[k].likedBy == me)
  {
  }

  // ---------------------------------------------------------------------
  // updateTweet, deleteTweet

  /**
   * `updateTweet`: 400 for a malformed id or missing content, 401 when the
   * tweet is missing or belongs to someone else; otherwise sets the content
   * and answers the tweet as it was before the update.
   */
  method UpdateTweet(db: Db, me: Id, tweetId: string, content: Option<string>) returns (r: Outcome<Tweet>)
    requires db.Valid()
    modifies db
    ensures db.Valid()
    ensures !IsValidObjectId(tweetId) ==> r == Err(BadRequest)
    ensures IsValidObjectId(tweetId) && !Truthy(content) ==> r == Err(BadRequest)
    ensures IsValidObjectId(tweetId) && Truthy(content) && FindTweet(old(db.tweets), CastId(tweetId)).None? ==>
      r == Err(Unauthorized)
    ensures IsValidObjectId(tweetId) && Truthy(content) && FindTweet(old(db.tweets), CastId(tweetId)).Some? ==>
      var i := FindTweet(old(db.tweets), CastId(tweetId)).value;
      if old(db.tweets)[i].owner != me then r == Err(Unauthorized)
      else
        && r == Ok(old(db.tweets)[i])
        && db.Snapshot() == old(db.Snapshot()).(tweets := old(db.tweets)[i := old(db.tweets)[i].(content := content.value)])
    ensures r.Err? ==> db.Snapshot() == old(db.Snapshot())
  {
    if !IsValidObjectId(tweetId) || !Truthy(content) {
      return Err(BadRequest);
    }
    var found := FindTweet(db.tweets, CastId(tweetId));
    if found.None? {
      return Err(Unauthorized);
    }
    var i := found.value;
    var tweet := db.tweets[i];
    if tweet.owner != me {
      return Err(Unauthorized);
    }
    UniqueByUpdate(db.tweets, TweetKey, i, tweet.(content := content.value));
    db.tweets := db.tweets[i := tweet.(content := content.value)];
    r := Ok(tweet);
  }

  /**
   * `deleteTweet`: 400 for a malformed id, 404 when missing, 400 when it
   * belongs to someone else; otherwise removes it and answers its id.
   */
  method DeleteTweet(db: Db, me: Id, tweetId: string) returns (r: Outcome<string>)
    requires db.Valid()
    modifies db
    ensures db.Valid()
    ensures !IsValidObjectId(tweetId) ==> r == Err(BadRequest)
    ensures IsValidObjectId(tweetId) && FindTweet(old(db.tweets), CastId(tweetId)).None? ==> r == Err(NotFound)
    ensures IsValidObjectId(tweetId) && FindTweet(old(db.tweets), CastId(tweetId)).Some? ==>
      var i := FindTweet(old(db.tweets), CastId(tweetId)).value;
      if old(db.tweets)[i].owner != me then r == Err(BadRequest)
      else
        && r == Ok(tweetId)
        && db.Snapshot() == old(db.Snapshot()).(tweets := RemoveAt(old(db.tweets), i))
    ensures r.Err? ==> db.Snapshot() == old(db.Snapshot())
  {
    if !IsValidObjectId(tweetId) {
      return Err(BadRequest);
    }
    var found := FindTweet(db.tweets, CastId(tweetId));
    if found.None? {
      return Err(NotFound);
    }
    if db.tweets[found.value].owner != me {
      return Err(BadRequest);
    }
    UniqueByRemove(db.tweets, TweetKey, found.value);
    db.tweets := RemoveAt(db.tweets, found.value);
    r := Ok(tweetId);
  }

  /** A deleted tweet is no longer found by its id, and every other tweet survives. */
  lemma DeletedTweetGone(tweets: seq<Tweet>, i: nat)
    requires UniqueBy(tweets, TweetKey) && i < |tweets|
    ensures FindTweet(RemoveAt(tweets, i), tweets[i].id).None?
    ensures forall j :: 0 <= j < |tweets| && j != i ==> tweets[j] in RemoveAt(tweets, i)
  {
    RemoveByKey(tweets, TweetKey, i);
  }
}
