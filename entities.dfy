/**
 * The documents of the seven collections, the public projections the
 * pipelines produce from them, and the claim sets signed into tokens.
 * `updatedAt` timestamps and Mongoose's version key are not modelled.
 */
module Entities {
  import opened Common

  /**
   * A user document. `password` holds the bcrypt hash; `refreshToken` is the
   * currently valid refresh token, "" when none (unset and cleared alike).
   */
  datatype User = User(
    id: Id,
    username: string,
    email: string,
    fullname: string,
    avatar: string,
    coverImage: string,
    watchHistory: seq<Id>,
    password: string,
    refreshToken: string)

  /** A video document; `videoFile` is `None` once `$unset` by a delete. */
  datatype Video = Video(
    id: Id,
    videoFile: Option<string>,
    thumbnail: string,
    title: string,
    description: string,
    duration: Option<real>,
    views: nat,
    isPublished: bool,
    owner: Id,
    createdAt: nat)

  datatype Comment = Comment(id: Id, content: string, video: Id, owner: Id, createdAt: nat)

  /** The one field a like document sets besides `likedBy`: `video`, `comment` or `tweet`. */
  datatype Target = OnVideo(video: Id) | OnComment(comment: Id) | OnTweet(tweet: Id)

  datatype Like = Like(id: Id, target: Target, likedBy: Id, createdAt: nat)

  datatype Subscription = Subscription(id: Id, subscriber: Id, channel: Id)

  datatype Tweet = Tweet(id: Id, content: string, owner: Id, createdAt: nat)

  datatype Playlist = Playlist(
    id: Id,
    name: string,
    description: string,
    owner: Id,
    videos: seq<Id>,
    createdAt: nat)

  /** The `{username, avatar}` projection of a user that the pipelines expose. */
  datatype UserCard = UserCard(username: string, avatar: string)

  function Card(u: User): UserCard {
    UserCard(u.username, u.avatar)
  }

  /** A user selected with `-password -refreshToken`. */
  datatype PublicUser = PublicUser(
    id: Id,
    username: string,
    email: string,
    fullname: string,
    avatar: string,
    coverImage: string,
    watchHistory: seq<Id>)

  function Public(u: User): PublicUser {
    PublicUser(u.id, u.username, u.email, u.fullname, u.avatar, u.coverImage, u.watchHistory)
  }

  /** The payload signed into an access token and into a refresh token. */
  datatype Claims =
    | AccessClaims(id: Id, fullname: string, email: string, username: string)
    | RefreshClaims(id: Id)

  // Keys of the unique indexes, as function values for Docs.UniqueBy.

  function UserKey(u: User): Id { u.id }
  function UsernameKey(u: User): string { u.username }
  function EmailKey(u: User): string { u.email }
  function VideoKey(v: Video): Id { v.id }
  function CommentKey(c: Comment): Id { c.id }
  function LikeKey(l: Like): Id { l.id }
  function SubscriptionKey(s: Subscription): Id { s.id }
  function TweetKey(t: Tweet): Id { t.id }
  function PlaylistKey(p: Playlist): Id { p.id }

  /** The (target, liker) pair: at most one like per pair. */
  function LikeEdge(l: Like): (Target, Id) { (l.target, l.likedBy) }

  /** The (channel, subscriber) pair: at most one subscription per pair. */
  function SubscriptionEdge(s: Subscription): (Id, Id) { (s.channel, s.subscriber) }
}
