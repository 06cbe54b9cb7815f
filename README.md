# Video platform backend: a verified model of its controllers

This project models the request handlers of a video-sharing backend in
Dafny and proves properties about them. The backend is an Express
application over MongoDB collections, accessed through Mongoose. Users
register, log in and refresh their tokens. They publish, list, watch, edit
and delete videos. They comment on videos, tweet and like things, subscribe
to channels and keep playlists. A dashboard sums up a channel.

## How the model is built

- The database is one object, `Store.Db`, with one `seq` field per
  collection: users, videos, comments, likes, subscriptions, tweets and
  playlists. Documents sit in natural (insertion) order.
  - `findOne` / `findById` return the first match (`Docs.Find`).
  - `create` appends a document.
  - `findByIdAndDelete` removes a document at its position.
  - An update replaces a document in place.
- `Store.ValidState` is the store's invariant. It collects:
  - the unique indexes: `_id` in every collection, and `username` and
    `email` of users;
  - one like per (target, user) pair and one subscription per
    (channel, subscriber) pair;
  - duplicate-free watch histories;
  - the schema's `lowercase` / `trim` setters on stored users.
- Handlers that write become methods on the store. Each method keeps the
  invariant and states its whole new state.
- Read-only aggregation pipelines become functions on a snapshot
  (`Store.State`). Lemmas say what those functions select, count and order.
- Error exits are `Common.Outcome` values carrying the HTTP status the
  handler throws.
  - An `ApiError` with a non-numeric status answers 500.
  - So do a plain `Error`, a failed ObjectId cast and a `TypeError`.
- Route parameters are strings. `Common.IsValidObjectId` accepts
  24 hexadecimal digits. `Common.CastId` gives the ObjectId they denote,
  spelled in lower case.
- Outside collaborators are parameters. A new document id must be absent
  from its collection. The others:
  - new document ids and the clock's timestamps;
  - JSON web tokens (`External.Jwt`: sign and verify);
  - bcrypt (`External.Bcrypt`: hash and compare);
  - the image host's answers (`External.Uploaded`, `External.DestroyAnswer`).

## Model

| member | source | states |
|---|---|---|
| Users.GenerateTokens | src/controllers/user.controllers.js:7-20 | missing user answers 500 and changes nothing; otherwise the user's access and refresh tokens are signed from its claims and the refresh token is stored on that user only |
| Users.StoreTokenKeepsValid | src/controllers/user.controllers.js:13-14 | storing a refresh token on a user keeps every index and schema invariant of the store |
| Users.Register | src/controllers/user.controllers.js:23-83 | blank field answers 400; a user already holding the username or email answers 409; past those, a files object without an avatar field, or one with cover images (read from the request body), fails with 500; no files or an empty avatar path answers 400, and so does a failed avatar upload; a missing field or an empty avatar URL fails creation with 500; otherwise the new user has the trimmed, lower-cased username and email, the trimmed full name, the uploaded avatar URL, an empty cover image and watch history, and the bcrypt hash of the password |
| Users.RegisterKeepsValid | src/controllers/user.controllers.js:64-71 | appending a registered user keeps unique usernames, emails and ids and the normalised form of stored users |
| Users.RegisterUser | src/controllers/user.controllers.js:23-83 | on success the store gains exactly the user `Register` decides, and the answer is its public projection; on failure the store is unchanged |
| Users.LoginUser | src/controllers/user.controllers.js:86-139 | neither username nor email answers 400; no user with the given username or email answers 404; a wrong password answers 401; otherwise tokens are issued for the first matching user and its refresh token is stored |
| Users.LogOutSpec | src/controllers/user.controllers.js:142-147 | logging out clears exactly the requester's refresh token, leaves every other user alone, is idempotent and keeps the store valid |
| Users.LogOut | src/controllers/user.controllers.js:142-163 | the users keep their order and every field but the refresh token; only the first user with the requester's id is cleared, and users with other ids are untouched |
| Users.LogOutUser | src/controllers/user.controllers.js:142-163 | the new store is the old one with the requester's refresh token cleared |
| Users.RefreshCheck | src/controllers/user.controllers.js:166-181 | succeeds exactly when a token arrives, verifies, names an existing user and equals that user's stored refresh token; every failure is 401 |
| Users.UsedRefreshTokenRejected | src/controllers/user.controllers.js:178-182 | after a successful refresh the token that was presented is rejected with 401 (the stored token is rotated) |
| Users.RefreshAccessToken | src/controllers/user.controllers.js:166-202 | failed checks answer 401 and change nothing; otherwise new tokens are generated and stored and the answer carries the new refresh token |
| Users.RefreshCookieAsWrittenRejected | src/controllers/user.controllers.js:182-194 | the refresh token handed back as written ("undefined") is rejected by the next refresh |
| Users.ChangeUserPassword | src/controllers/user.controllers.js:205-217 | missing user or old password answers 500; a wrong old password answers 400; otherwise the password is replaced by the hash of the new one, or left unchanged when none is given |
| Users.UpdateAccount | src/controllers/user.controllers.js:227-241 | either field missing answers 401; no user answers with no payload; an email held by another user answers 500; otherwise the trimmed full name and normalised email are stored and the public user answered |
| UserModel.TrimSpec | src/models/user.models.js:11 | trimming removes exactly the leading and trailing whitespace and keeps the middle |
| UserModel.TrimIdempotent | src/models/user.models.js:11 | trimming twice equals trimming once |
| UserModel.LowerSpec | src/models/user.models.js:9 | lower-casing leaves no upper-case letter, is idempotent, and fixes a string with no upper-case letter |
| UserModel.LowerTrimCommute | src/models/user.models.js:9-11 | lower-casing and trimming commute, so the setters' order does not matter |
| UserModel.TrimmedSpec | src/models/user.models.js:11 | a trimmed string has no whitespace at either end, and a string is fixed by trimming exactly when it has none |
| UserModel.NormalizeSpec | src/models/user.models.js:6-20 | the username and email setters produce a lower-case trimmed string, and a string is fixed by them exactly when it is already in that form |
| UserModel.NormalizeIdempotent | src/models/user.models.js:6-20 | applying the setters twice equals applying them once |
| UserModel.PreSave | src/models/user.models.js:49-53 | saving keeps an untouched password's stored hash; an assigned password is replaced by its bcrypt hash with 10 salt rounds, and a non-string one aborts the save |
| UserModel.PreSaveKeepsHash | src/models/user.models.js:50 | a save that did not touch the password never rehashes it |
| UserModel.IsPasswordCorrect | src/models/user.models.js:55-65 | fails with 500 exactly when the candidate or the stored password is not a string; otherwise answers bcrypt's comparison of the two |
| UserModel.ClaimsExactly | src/models/user.models.js:68-94 | the access token carries id, full name, email and username; the refresh token carries only the id |
| Auth.SelectTokenSpec | src/middlewares/auth.middleware.js:8 | the access-token cookie wins; otherwise the first "Bearer " is removed from the Authenticate header; no header means no token |
| Auth.SelectToken | src/middlewares/auth.middleware.js:8 | a non-empty cookie is the token; otherwise a token exists exactly when the header does, and it is no longer than the header |
| Auth.ValidToken | src/middlewares/auth.middleware.js:6-25 | no token, a token that does not verify or a user that does not exist answers 500 with the request untouched; otherwise the request carries the user's public projection |
| Auth.AttachedUserHidesSecrets | src/middlewares/auth.middleware.js:15 | the user attached to the request does not depend on the password or the refresh token |
| Cloud.LastSegment | src/utils/cloudinary.js:29 | the text after the last separator: a suffix with no separator, preceded by one when shorter than the input |
| Cloud.FirstSegment | src/utils/cloudinary.js:29 | the text before the first separator: a prefix with no separator, followed by one when shorter than the input |
| Cloud.PublicIdIsPlain | src/utils/cloudinary.js:29 | the public id taken from a URL contains no '/' and no '.' |
| Cloud.PublicIdOfPlain | src/utils/cloudinary.js:29 | a reference without '/' or '.' is its own public id |
| Cloud.PublicId | src/utils/cloudinary.js:29 | the public id is no longer than the reference and contains no '.' |
| Cloud.UploadOnCloud | src/utils/cloudinary.js:11-24 | no local path gives no upload; otherwise the host's answer, or nothing when it failed |
| Cloud.DeleteOnCloud | src/utils/cloudinary.js:26-41 | no reference gives nothing; "ok" or "not found" gives the host's answer for the public id; any other answer is a 500 |
| Videos.GetAllVideosSelection | src/controllers/video.controllers.js:14-63 | the listing holds each video that matches the query in title or description (ignoring case) and, when an owner is given, belongs to that owner; it holds each such video exactly as often as the store does, and nothing else |
| Videos.GetAllVideosOrder | src/controllers/video.controllers.js:43-52 | the listing is sorted by the requested field in the requested direction, newest first by default |
| Videos.EmptyQueryMatchesAll | src/controllers/video.controllers.js:28-42 | an absent or empty query matches every video |
| Videos.GetAllVideos | src/controllers/video.controllers.js:14-63 | no user id answers 401 and is the only failure; a listing holds only stored, published videos and is no longer than the collection |
| Videos.Publish | src/controllers/video.controllers.js:65-114 | succeeds exactly when title, description and both uploads are present and uploaded; the new video is unpublished, unviewed, owned by the requester and carries the upload's URLs and duration; a missing title, or a missing description after a good title, is 500; a blank title or description is 400; a files object without either field is 500; no files or an empty video path is 401; an empty thumbnail path is 400; a failed upload of either file is 401 |
| Videos.PublishAVideo | src/controllers/video.controllers.js:65-114 | on success the store gains exactly the video `Publish` decides; on failure nothing changes |
| Videos.ViewVideoSpec | src/controllers/video.controllers.js:126-212 | the view carries the video's fields, its owner's card, the owner's subscriber count, whether the viewer subscribes, and the video's like count |
| Videos.AtMostOneWithKey | src/controllers/video.controllers.js:140-188 | with unique user ids the owner lookup finds at most one user |
| Videos.ViewVideo | src/controllers/video.controllers.js:126-212 | the view copies the video's own fields; every entry of the owner lookup is a user with the video's owner id, and the owner is the first of them, present exactly when the lookup is non-empty |
| Videos.Watch | src/controllers/video.controllers.js:225-240 | only the video's views and the viewer's watch history change; the views rise by one exactly when the route's id text is not in the history, and the history gains the video's id |
| Videos.WatchOnce | src/controllers/video.controllers.js:226-240 | with the id spelled as stored, a view counts once per user: the count rises by one exactly when the video is not yet in the viewer's history, the video joins the history, and a second watch changes nothing |
| Videos.RewatchRecounts | src/controllers/video.controllers.js:226-240 | a route spelling that differs from the stored id text is never found in the history, so two watches add two views while the history stops changing after the first |
| Videos.WatchKeepsValid | src/controllers/video.controllers.js:226-240 | watching keeps the store valid, including duplicate-free watch histories |
| Videos.GetVideoById | src/controllers/video.controllers.js:116-247 | malformed id answers 400; a missing video or viewer answers 500; otherwise answers the view of the video and records the watch, comparing the history with the id as spelled in the route |
| Videos.UpdateVideo | src/controllers/video.controllers.js:249-294 | each guard answers its status (401, 500, 404, 401, 400, 401, 500) and changes nothing; otherwise only title, description and thumbnail URL of that video change |
| Videos.DeleteVideo | src/controllers/video.controllers.js:296-326 | each guard answers its status and changes nothing; otherwise the video's file reference is removed and the document itself stays |
| Videos.DeleteKeepsDocument | src/controllers/video.controllers.js:318-322 | a deleted video is still found by its id and keeps every field except its file |
| Videos.FlipPublished | src/controllers/video.controllers.js:344-347 | the toggle negates the published flag and leaves every other field alone |
| Videos.FlipTwice | src/controllers/video.controllers.js:344-347 | toggling twice restores the video |
| Videos.TogglePublishStatus | src/controllers/video.controllers.js:328-355 | malformed or unknown id answers 400; otherwise the flag is negated in the store and the new flag answered |
| Likes.ToggleFlips | src/controllers/like.controllers.js:8-35 | a toggle flips whether the user likes the target and no other (target, user) pair |
| Likes.ToggleCount | src/controllers/like.controllers.js:8-35 | the target's like count moves by exactly one: down when it was liked, up when not |
| Likes.ToggleTwiceRestores | src/controllers/like.controllers.js:8-35 | toggling twice from "not liked" restores the likes exactly |
| Likes.ToggleKeepsUnique | src/controllers/like.controllers.js:8-35 | a toggle keeps unique like ids and one like per (target, user) |
| Likes.ToggleOn | src/controllers/like.controllers.js:14-32 | the store after a toggle is the old one with `ToggleLikes` applied to the likes, and the answer is the like removed or created |
| Likes.ToggleVideoLike | src/controllers/like.controllers.js:8-35 | malformed id answers 400 and changes nothing; otherwise the video like is toggled |
| Likes.ToggleCommentLike | src/controllers/like.controllers.js:37-59 | empty id answers 400; a malformed id fails its cast (500); otherwise the comment like is toggled |
| Likes.ToggleTweetLike | src/controllers/like.controllers.js:61-81 | empty id answers 400; a malformed id fails its cast (500); otherwise the tweet like is toggled |
| Likes.JoinedSpec | src/controllers/like.controllers.js:85-114 | the join holds an entry exactly when one of the user's likes is on an existing video with an existing owner |
| Likes.LikedVideosSound | src/controllers/like.controllers.js:83-146 | every listed video is one a like of the user resolves to |
| Likes.LikedVideosComplete | src/controllers/like.controllers.js:83-146 | every video a like of the user resolves to is listed |
| Likes.GetLikedVideos | src/controllers/like.controllers.js:83-146 | the listing is never longer than the likes collection |
| Likes.LikeResolvesOne | src/controllers/like.controllers.js:85-114 | a like contributes one joined entry when it is the user's, on a stored video whose owner is stored, and none otherwise |
| Likes.LikeResolvesMeans | src/controllers/like.controllers.js:85-114 | that test holds exactly when the like resolves to some stored video with a stored owner |
| Likes.JoinedLength | src/controllers/like.controllers.js:85-114 | the join has as many entries as the user has resolving likes |
| Likes.LikedEntriesCount | src/controllers/like.controllers.js:83-146 | the sorted joined likes number exactly the user's resolving likes |
| Likes.LikedEntriesOrder | src/controllers/like.controllers.js:115-119 | the joined likes are in descending order of the like's creation time |
| Likes.LikedEntryFromLike | src/controllers/like.controllers.js:83-146 | each joined entry carries the creation time and video of a resolving like of the user |
| Likes.LikedVideosSpec | src/controllers/like.controllers.js:83-146 | the listing holds a summary exactly when a like of the user resolves to that video; its length is the number of resolving likes; each entry summarises the joined like at the same position |
| Subscriptions.ToggleFlips | src/controllers/subscription.controllers.js:18-34 | a toggle flips whether the user subscribes to the channel and no other pair |
| Subscriptions.ToggleCount | src/controllers/subscription.controllers.js:18-34 | the channel's subscriber count moves by exactly one |
| Subscriptions.ToggleTwiceRestores | src/controllers/subscription.controllers.js:18-34 | toggling twice from "not subscribed" restores the subscriptions exactly |
| Subscriptions.ToggleKeepsValid | src/controllers/subscription.controllers.js:8-37 | a toggle past the self guard keeps unique ids and one subscription per pair, and never makes a user subscribe to themself |
| Subscriptions.ToggleSubscription | src/controllers/subscription.controllers.js:8-37 | malformed id answers 400; one's own channel, however spelled, answers 401; otherwise toggles |
| Subscriptions.SelfGuardBypass | src/controllers/subscription.controllers.js:13 | an upper-case spelling of one's own id passes the guard as written although it denotes the same user |
| Subscriptions.ChannelSubscribersSpec | src/controllers/subscription.controllers.js:40-82 | the total is the channel's subscription count, the payload is absent exactly when there are none, and a user's card is listed exactly when that user subscribes |
| Subscriptions.GetUserChannelSubscribers | src/controllers/subscription.controllers.js:40-82 | malformed id answers 400, any valid id succeeds; a payload has a positive total no larger than the subscriptions, and as many cards as there are stored users whose id is among the channel's subscribers |
| Subscriptions.ChannelSubscriberCardsDistinct | src/controllers/subscription.controllers.js:58-65 | the `$lookup` yields each matching user once: with unique usernames, no two cards of the payload share a username |
| Subscriptions.ChannelCardsSpec | src/controllers/subscription.controllers.js:96-116 | the joined cards are exactly those of existing users that the subscriptions point at, at most one per subscription |
| Subscriptions.SubscribedChannelCard | src/controllers/subscription.controllers.js:85-129 | a card is listed exactly when it belongs to an existing channel the user subscribes to |
| Subscriptions.SubscribedChannelsSpec | src/controllers/subscription.controllers.js:85-129 | a valid id always succeeds, and the listing holds exactly the cards of the channels subscribed to |
| Subscriptions.SubscribedChannelsCount | src/controllers/subscription.controllers.js:85-129 | the `$unwind` gives one entry per subscription of the subscriber whose channel is a stored user: the listing has exactly that many entries, and entry i is the card of the i-th such subscription's channel |
| Subscriptions.GetSubscribedChannels | src/controllers/subscription.controllers.js:85-129 | malformed id answers 400; a valid id succeeds with at most one card per subscription |
| Tweets.CreateTweet | src/controllers/tweet.controllers.js:7-23 | missing content answers 400 and changes nothing; otherwise the new tweet is owned by the requester and appended |
| Tweets.CreatedTweetFound | src/controllers/tweet.controllers.js:13-16 | the created tweet is found by its id |
| Tweets.UserTweetsAlwaysFail | src/controllers/tweet.controllers.js:25-106 | as written, every request past the id check fails with 500 |
| Tweets.UserTweetsMatchAsWritten | src/controllers/tweet.controllers.js:31-36 | the written `$match` selects the requester's tweets whatever user the route names, so for another user it lists other tweets than the corrected listing |
| Tweets.GetUserTweets | src/controllers/tweet.controllers.js:25-106 | malformed id answers 400; otherwise the corrected listing has one view per tweet of the named user |
| Tweets.UserTweetsSelection | src/controllers/tweet.controllers.js:25-106 | the corrected listing holds exactly the named user's tweets, each once, newest first |
| Tweets.UserTweetsViews | src/controllers/tweet.controllers.js:53-84 | each listed tweet carries its like count and whether the requester liked it |
| Tweets.UpdateTweet | src/controllers/tweet.controllers.js:108-141 | malformed id or missing content answers 400; a missing tweet or someone else's answers 401; otherwise only the content changes and the tweet as it was is answered |
| Tweets.DeleteTweet | src/controllers/tweet.controllers.js:143-166 | malformed id answers 400; missing answers 404; someone else's answers 400; otherwise the tweet is removed |
| Tweets.DeletedTweetGone | src/controllers/tweet.controllers.js:161 | a deleted tweet is no longer found and every other tweet survives |
| Comments.VideoCommentsSelection | src/controllers/comment.controllers.js:9-97 | the listing holds exactly the video's comments, each once, newest first |
| Comments.GetVideoComments | src/controllers/comment.controllers.js:9-97 | malformed id answers 400; otherwise one view per comment on the video |
| Comments.VideoCommentViews | src/controllers/comment.controllers.js:31-64 | each comment's like count and whether the requester liked it agree with the likes collection; the first liker is present exactly when there is a like, and is the liker of the first like on the comment |
| Comments.AddComment | src/controllers/comment.controllers.js:99-131 | malformed id or missing content answers 400; a missing video answers 401; otherwise the requester's new comment is appended |
| Comments.AddedCommentListed | src/controllers/comment.controllers.js:99-131 | an added comment is listed among its video's comments |
| Comments.UpdateComment | src/controllers/comment.controllers.js:133-168 | malformed id or missing content answers 400; missing answers 404; someone else's answers 401; otherwise only the content changes |
| Comments.CascadeAsWrittenKeepsLikes | src/controllers/comment.controllers.js:190-195 | the cascade as written removes no like, so the comment's likes outlive it |
| Comments.Cascade | src/controllers/comment.controllers.js:190-195 | the corrected cascade keeps only likes of the old collection that are not on the comment |
| Comments.CascadeSpec | src/controllers/comment.controllers.js:190-195 | the corrected cascade removes exactly the likes on the deleted comment and keeps every other like |
| Comments.CascadeKeepsUnique | src/controllers/comment.controllers.js:190-195 | the cascade keeps unique like ids and one like per (target, user) |
| Comments.DeleteComment | src/controllers/comment.controllers.js:170-199 | malformed id answers 400; missing answers 404; someone else's answers 401; otherwise the comment and its likes are removed and the comment answered |
| Playlists.CreatePlaylist | src/controllers/playlist.controllers.js:9-27 | name or description missing answers 400; otherwise an empty playlist owned by the requester is appended |
| Playlists.GetUserPlaylists | src/controllers/playlist.controllers.js:29-78 | malformed id answers 400; otherwise one summary per playlist of the user, each owned by that user |
| Playlists.SummaryIgnoresOrder | src/controllers/playlist.controllers.js:29-78 | the figures depend only on which ids the playlist lists, not on their order or repeats |
| Playlists.SummaryCounts | src/controllers/playlist.controllers.js:29-78 | the total counts the stored videos the playlist lists; an empty playlist has no videos and no views |
| Playlists.Populate | src/controllers/playlist.controllers.js:80-95 | populating never yields more entries than the playlist lists |
| Playlists.PopulateLength | src/controllers/playlist.controllers.js:86 | the populated list has one entry per listed id that names a stored video |
| Playlists.PopulateSpec | src/controllers/playlist.controllers.js:80-95 | the populated list holds exactly the listed videos that exist |
| Playlists.GetPlaylistById | src/controllers/playlist.controllers.js:80-95 | malformed id answers 400; a valid id naming no playlist answers 404; otherwise the stored playlist with that id, populated |
| Playlists.EditGuard | src/controllers/playlist.controllers.js:97-120 | a malformed id answers 400; a missing playlist or video answers 404; with both found, someone else's playlist answers 401 and one's own succeeds, naming the playlist |
| Playlists.AddVideoToPlaylist | src/controllers/playlist.controllers.js:97-143 | after the guard only that playlist's list changes, by adding the video once; the answer is the populated list |
| Playlists.RemoveVideoFromPlaylist | src/controllers/playlist.controllers.js:145-188 | after the guard only that playlist's list changes, by removing every occurrence of the video |
| Playlists.EditAnswers | src/controllers/playlist.controllers.js:97-188 | after an add the video is in the populated answer; after a remove it is not |
| Playlists.DeletePlaylist | src/controllers/playlist.controllers.js:190-208 | empty id answers 400; a malformed id fails its cast (500); missing or someone else's answers 400; otherwise the playlist is removed |
| Playlists.UpdatePlaylist | src/controllers/playlist.controllers.js:210-243 | malformed id answers 400; a missing field answers 500; missing answers 400; someone else's answers 401; otherwise only name and description change |
| Store.AddToSetSpec | src/controllers/playlist.controllers.js:121-130 | `$addToSet` keeps the old list, adds the id exactly when it was absent, and keeps a duplicate-free list duplicate-free |
| Store.PullSpec | src/controllers/playlist.controllers.js:167-175 | `$pull` removes every occurrence of the id and keeps every other entry |
| Store.PullKeepsOrder | src/controllers/playlist.controllers.js:167-175 | `$pull` works piece by piece over a concatenation, drops the id and keeps any other, so the remaining ids keep their order |
| Store.PullUndoesAdd | src/controllers/playlist.controllers.js:121-175 | removing an id just added to a list without it restores the list |
| Dashboard.ChannelStatsSpec | src/controllers/dashboard.controllers.js:9-123 | fails with 500 exactly when the channel has no videos or no subscribers; otherwise the totals are the number of videos, the sum of their views, the subscriber count and the number of likes on the channel's videos |
| Dashboard.GetChannelStats | src/controllers/dashboard.controllers.js:9-123 | every failure is 500; the totals of a success are positive counts no larger than the collections |
| Dashboard.MyVideoIds | src/controllers/dashboard.controllers.js:11-23 | an id is among the channel's video ids exactly when a video of the channel has it |
| Dashboard.LikesSumIsCount | src/controllers/dashboard.controllers.js:16-42 | summing each video's like count equals counting the likes on any of the videos |
| Dashboard.MyVideosSpec | src/controllers/dashboard.controllers.js:127-137 | the channel's videos, newest first, are exactly its videos in the store |
| Dashboard.GetChannelVideos | src/controllers/dashboard.controllers.js:125-157 | the listing is no longer than the videos collection, and every entry is the requester's |
| Dashboard.ChannelVideosSpec | src/controllers/dashboard.controllers.js:125-157 | the listing holds the projection of each of the channel's videos and nothing else, newest first |

## Left out

- Paging: `aggregatePaginate` with page and limit is not modelled. Listings
  are the full result of the pipeline.
- Regular-expression search in `getAllVideos` is modelled as a plain
  substring search that ignores ASCII case. Regex metacharacters in the
  query are not interpreted.
- A `sortBy` other than `createdAt` or `views` is modelled as "no order".
  The order among ties of a `$sort` is unspecified, so the model states
  sortedness and contents, not positions.
- ObjectIds given as 12-character strings are not modelled; only the
  24-hex-digit form is.
- The internals of bcrypt, JSON web tokens and the image host are
  parameters. Token expiry is part of what `verify` answers.
- `user.controllers.js` uses `jwt.verify` without importing `jwt`. The
  model lets the refresh handler verify as evidently intended.
- Removing local files after upload, console logging and the debug lookup
  in `getVideoById` are I/O and are left out.
- `updatedAt` timestamps are not modelled.
- Concurrent requests are not modelled; each handler runs alone.
- Routing and request parsing are not modelled. Handlers take the body
  fields and route parameters as arguments.
- `getCurrentUser` answers the user the middleware attached, unchanged. It
  has no behaviour of its own to model.
- `avatarUpdate` and `coverImageUpdate` have no route and are left out.
- The `if (!x)` branches that answer 500 after a successful create or
  update cannot be taken in the model and are left out.
- Users.ChangeUserPassword: the `save` is not awaited. The model treats it
  as completed before the answer.
- Auth.ValidToken: the catch block rethrows `new Error(401, …)`, which
  carries no status, so every failure answers 500, as modelled.
- Cloud.DeleteOnCloud: `destroy` is not awaited, and `ApiError` is not
  imported in that file. The model takes the host's answer as given and
  does not capture that the written code fails on every reference.
- UserModel.Lower: folds only the letters A to Z. JavaScript's `toLowerCase`
  folds every Unicode letter, so "ÉMILE" is stored as "émile" by the
  schema setter and as "ÉMILE" by the model.
- UserModel.LowerSpec: "no upper-case letter" means no letter from A to Z;
  a non-ASCII capital survives, because full Unicode case mapping is not
  modelled.
- UserModel.NormalizeSpec: the normal form lowers only A to Z, so it does
  not promise that a stored username holds no non-ASCII capital.
- Users.Register: usernames and emails that differ only in a non-ASCII
  capital ("Émile", "émile") count as two users in the model, where the
  source answers 409; this follows from the ASCII-only case folding.
- Video schema validators are not part of this model. A user's unset
  `refreshToken` or `coverImage` is modelled as the empty string.
- Mongoose's query setters are assumed to apply to `findOne` filters on
  username and email. A filter value that is undefined matches nothing.

## Findings

| source | as written | input that shows it | evidently intended | confidence | as-written member | corrected member |
|---|---|---|---|---|---|---|
| src/controllers/subscription.controllers.js:13 | the self-subscription guard compares the route parameter's text with the user's id text | the own id "5f0a0b0c0d0e0f1011121314" spelled as "5F0A0B0C0D0E0F1011121314" passes the guard, and the user subscribes to their own channel | refuse any spelling that denotes the requester's own id | high, not executed | Subscriptions.SelfGuardBypass | Subscriptions.ToggleSubscription |
| src/controllers/tweet.controllers.js:69 | the stage is named `$addfields` | any request with a valid user id: the database rejects the unknown stage and the handler answers 500 | `$addFields` | high, not executed | Tweets.UserTweetsAlwaysFail | Tweets.UserTweetsSelection |
| src/controllers/tweet.controllers.js:31-36 | `$match` selects the requester's tweets and ignores the `userId` of the route | a request naming another user who has tweets: the requester's tweets are selected instead | matching the tweets of the user in the route | high, not executed | Tweets.UserTweetsMatchAsWritten | Tweets.UserTweetsSelection |
| src/controllers/comment.controllers.js:190-195 | the cascade filters likes on a field `owner`, which like documents do not have | deleting a liked comment with `strictQuery` off (Mongoose 7 and later) leaves its likes in place | remove the likes that reference the deleted comment | medium (depends on the Mongoose version), not executed | Comments.CascadeAsWrittenKeepsLikes | Comments.CascadeSpec |
| src/controllers/user.controllers.js:182-194 | the handler destructures `NewRefreshToken`, a name the token generator does not return | any successful refresh: the cookie holds "undefined" instead of the new token (the body omits the key), and the next refresh is refused | hand back the refresh token just generated and stored | high, not executed | Users.RefreshCookieAsWrittenRejected | Users.RefreshAccessToken |
| src/controllers/video.controllers.js:227 | `includes` tests the route's id text against the stored ids' lower-case text, while the update and `$addToSet` cast it | watching a video as "5F0A0B0C0D0E0F1011121314" when it is stored as "5f0a0b0c0d0e0f1011121314": every request adds a view | count one view per viewer whatever the spelling | high, not executed | Videos.RewatchRecounts | Videos.WatchOnce |
