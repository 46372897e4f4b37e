# VideoTube engagement and membership logic

This project models the backend controllers of VideoTube, a video-sharing service built on Express and Mongoose. It covers:

- likes on videos, comments and tweets;
- channel subscriptions;
- playlists and their schema;
- publishing a video and fetching it, which counts a view and updates the viewer's watch history;
- tweet create, list, update and delete.

It also models two pure helpers of the dashboard video card: the M:SS duration label and the publish-toggle record copy.

MongoDB collections are in-memory stores:

- **Relation tables** (Like, Subscription) are `Documents.Table`: a sequence of rows, each a field-to-string map, with a counter for row ids. A query is MongoDB equality matching: a row that lacks a queried field does not match.
- **Entity collections** (Playlist, Video, User, Tweet) are fields of a class (`map` or `seq`), updated by the controller methods.

The like, subscription, video and tweet handlers are each specified by a pure step function of the old state. The method that models such a handler promises to return the step's answer and leave the step's new state. The playlist handlers instead state their answers and new state directly in their own `ensures` clauses. The lemmas about the step functions state what the controller promises, for example:

- a double toggle gives opposite answers and restores every query's count, and when the first call created a row it restores the rows exactly;
- at most one row exists per key;
- fetching counts views, and the watch history holds a video at most once;
- a removal keeps order;
- the controller's error codes (400/401/404/500) for each input.

Modules:

| file | module | models |
|---|---|---|
| common.dfy | `Common` | ids, `ObjectId.isValid`, JS truthiness, the ApiError codes |
| text.dfy | `Text` | `String.prototype.trim` |
| documents.dfy | `Documents` | equality queries and the find, then delete or create, toggle |
| likes.dfy | `Likes` | like.controller.js |
| subscriptions.dfy | `Subscriptions` | subscription.controller.js |
| users.dfy | `Users` | the User watch history and `$addToSet` |
| playlists.dfy | `Playlists` | playlist.controller.js and playlist.model.js |
| videos.dfy | `Videos` | video.controller.js |
| tweets.dfy | `Tweets` | tweet.controller.js |
| dashboard_card.dfy | `DashboardCard` | DashboardVideoCard.jsx |

Conventions:

- **Ids.** `IsValidId` is Mongoose's `ObjectId.isValid` on strings: exactly 24 hexadecimal characters.
- **Malformed ids.** Some handlers pass an id straight to a query without checking it: subscriptions, getVideoById, updateTweet and deleteTweet. There, a malformed id makes Mongoose's ObjectId cast throw, and the error handler turns that into a 500. `ServerError` models this.
- **Missing request values.** An optional request value is an `Option`. JavaScript truthiness of a string (`Common.Truthy`) excludes both undefined and "".

## Where the code and its description differ

The model follows the code in each of these places.

- **Removing an absent video.** `removeVideoFromPlaylist` answers 400, not 404, when the video is not in the playlist (backend/src/controllers/playlist.controller.js:146-148).
- **The playlist duplicate guard.** It compares the stored ids with an un-awaited `Video.findById` query object, so it never fires (playlist.controller.js:106-113). For the same reason, the "Video not found" branches after it can never be taken (playlist.controller.js:106-109 and 141-144).
- **The tweet-like toggle.** It looks up `{tweet, likedBy}` but creates `{tweetId, userId}` (like.controller.js:96-99 against 111-114).
- **No cast errors are caught explicitly.** The subscription handlers, getVideoById, updateTweet and deleteTweet do not check id format. A malformed id surfaces as a 500, not a 400.
- **Empty playlist names are not fully prevented.** `updatePlaylist` writes `name` with `$set` and does not run the schema validators, so a request whose name is "" and whose description is non-empty stores an empty name. `createPlaylist` rejects such a name.
- **Saving a playlist with an empty name fails.** `addVideoToPlaylist` and `removeVideoFromPlaylist` change the loaded document and then call `save()` (playlist.controller.js:116 and 153). `save()` runs the schema's `required` validators, so a playlist whose name was emptied by `updatePlaylist` can no longer gain or lose videos. The request ends in a 500, and nothing is written.
- **Missing upload fields.** `publishAVideo` reads `req.files?.videoFile[0]?.path`, and the `?.` does not cover the `[0]`. So a multipart request that lacks the `videoFile` or `thumbnail` field throws a TypeError (500), not the intended 400 (video.controller.js:21-22).

## Model

| member | source | states |
|---|---|---|
| Common.Occurrences | backend/src/controllers/video.controller.js:81-90 | the number of times an id occurs in a list is at most the list's length, and it is zero exactly when the id is absent; this is how "at most once" in the watch history is counted |
| Common.NoDupOccursOnce | backend/src/controllers/video.controller.js:81-90 | in a duplicate-free list, a listed id occurs exactly once |
| Text.TrimStart | backend/src/controllers/playlist.controller.js:13 | the result is a suffix of the input; everything dropped is whitespace; the result starts with a non-whitespace character or is empty |
| Text.TrimEnd | backend/src/controllers/playlist.controller.js:13 | the result is a prefix of the input; everything dropped is whitespace; the result ends with a non-whitespace character or is empty |
| Text.Trim | backend/src/controllers/playlist.controller.js:13 | the result is no longer than the input, and both its ends are non-whitespace unless it is empty |
| Text.TrimIsSlice | backend/src/controllers/playlist.controller.js:24-25 | the trimmed string is a contiguous slice of the input, with only whitespace before and after it |
| Text.TrimEmptyIff | backend/src/controllers/playlist.controller.js:13-15 | `!name.trim()` holds exactly for whitespace-only names, including "" |
| Text.TrimIdempotent | backend/src/controllers/playlist.controller.js:24-25 | trimming an already trimmed name changes nothing |
| Documents.FindFirst | backend/src/controllers/like.controller.js:15-20 | `findOne` returns the position of the first row that matches the query, or nothing exactly when no row matches |
| Documents.Count | backend/src/controllers/subscription.controller.js:52 | the number of matching rows is at most the number of rows, and it is zero exactly when nothing matches |
| Documents.FindAll | backend/src/controllers/subscription.controller.js:52 | `find` returns as many rows as match, and a row is returned exactly when it is stored and matches |
| Documents.Toggle | backend/src/controllers/like.controller.js:15-43 | if a row matches, the row `findOne` finds (the first match) is deleted and returned, and the others are kept in order; otherwise a row with the inserted fields and a fresh id is appended |
| Documents.ToggleWellFormed | backend/src/controllers/like.controller.js:22-43 | a toggle keeps row ids unique and below the id counter |
| Documents.ToggleRow | backend/src/controllers/like.controller.js:15-43 | the imperative lookup, then delete or create, on the collection object: its answer and new rows are those of `Toggle` |
| Documents.ToggleCount | backend/src/controllers/like.controller.js:22-43 | how the count of any query changes under a toggle: it loses the deleted row, or gains the created one if that matches |
| Documents.ToggleKeepsOtherRows | backend/src/controllers/like.controller.js:22-30 | a deleting toggle removes exactly one stored, matching row, and every other row stays |
| Documents.ToggleNeverDuplicates | backend/src/controllers/like.controller.js:15-43 | a toggle keeps at most one row matching a query when the row it creates could match that query only if the query is its own lookup |
| Documents.ToggleSubFilterCount | backend/src/controllers/subscription.controller.js:16-39 | for any query that the key implies, the count moves by exactly +1 on create and -1 on delete |
| Documents.ToggleTwice | backend/src/controllers/like.controller.js:15-43 | if every row matching the key equals the key and at most one exists, two toggles answer with opposite outcomes and restore every query's count; if the first call created a row, the second restores the rows exactly |
| Likes.ToggleVideoLike | backend/src/controllers/like.controller.js:7-46 | a missing or malformed id gives 400 and leaves the store untouched; otherwise the toggle on `{video, likedBy}`, answering Liked = true on create |
| Likes.ToggleCommentLike | backend/src/controllers/like.controller.js:48-83 | the same toggle on `{comment, likedBy}` |
| Likes.ToggleTweetLike | backend/src/controllers/like.controller.js:85-122 | the toggle as written: it looks up `{tweet, likedBy}` and creates `{tweetId, userId}` |
| Likes.ToggleTweetLikeIntended | backend/src/controllers/like.controller.js:96-114 | the toggle that creates the row it looks up |
| Likes.BadIdRejected | backend/src/controllers/like.controller.js:9-14 | for each of the three toggles, a missing or malformed id answers 400 and leaves the Like store unchanged (also lines 50-54 and 88-94) |
| Likes.VideoLikeCreates | backend/src/controllers/like.controller.js:32-43 | with no `(video, likedBy)` row, the toggle answers Liked = true and appends exactly one such row |
| Likes.VideoLikeDeletes | backend/src/controllers/like.controller.js:22-30 | with the row present, the toggle answers Liked = false, deletes exactly that row and keeps all others |
| Likes.VideoLikeTwice | backend/src/controllers/like.controller.js:15-43 | two video-like toggles by the same user answer with opposite outcomes and leave every equality query's count as before; when the first call liked, the Like rows come back exactly |
| Likes.VideoLikesStayUnique | backend/src/controllers/like.controller.js:15-120 | at most one row per `(video, likedBy)` pair is preserved by each of the video, comment and tweet toggles, and by the corrected tweet toggle |
| Likes.CommentLikesStayUnique | backend/src/controllers/like.controller.js:15-120 | at most one row per `(comment, likedBy)` pair is preserved by each of the video, comment and tweet toggles, and by the corrected tweet toggle |
| Likes.LikeStepNeverDuplicates | backend/src/controllers/like.controller.js:9-43 | a like toggle, including its 400 path, never makes a second row match a query that only its own key can create |
| Likes.LikeStepShaped | backend/src/controllers/like.controller.js:32-37 | toggles keep every Like row in one of the four shapes the controller creates |
| Likes.VideoKeyMatchesOnlyItself | backend/src/controllers/like.controller.js:15-20 | a video-like row matches a video-like lookup exactly when video and user agree |
| Likes.VideoAndCommentRowsDisjoint | backend/src/controllers/like.controller.js:56-59 | video-like rows never match comment-like lookups, and the reverse |
| Likes.CommentLikeKeepsVideoLikes | backend/src/controllers/like.controller.js:56-80 | a comment-like toggle leaves every video-like count unchanged |
| Likes.CommentLikeTwice | backend/src/controllers/like.controller.js:56-80 | two comment-like toggles answer with opposite outcomes and leave every equality query's count as before; when the first call liked, the Like rows come back exactly |
| Likes.TweetInsertNeverMatched | backend/src/controllers/like.controller.js:96-114 | a created `{tweetId, userId}` row never matches a `{tweet, likedBy}` lookup |
| Likes.TweetLikeAlwaysCreates | backend/src/controllers/like.controller.js:96-120 | with no matching row, every tweet-like call answers Liked = true, so n calls add n rows and the lookup still finds none |
| Likes.TweetLikeIntendedTwice | backend/src/controllers/like.controller.js:96-114 | two corrected tweet toggles answer with opposite outcomes and leave every query's count as before, and restore the rows exactly when the first call liked, as for the video toggle |
| Subscriptions.ToggleSubscription | backend/src/controllers/subscription.controller.js:8-43 | an empty channel id gives 400 and no change; a malformed one fails the cast (500); otherwise the toggle on `{channel, subscriber}`, returning the deleted or created row |
| Subscriptions.ChannelSubscribers | backend/src/controllers/subscription.controller.js:46-59 | exactly the rows whose `channel` equals the id, as many as match; "" gives 400 |
| Subscriptions.SubscribedChannels | backend/src/controllers/subscription.controller.js:62-76 | exactly the rows whose `subscriber` equals the id, as many as match; "" gives 400 |
| Subscriptions.SubscribeCreates | backend/src/controllers/subscription.controller.js:29-39 | with no row for the pair, the toggle appends exactly one and returns it |
| Subscriptions.UnsubscribeDeletes | backend/src/controllers/subscription.controller.js:21-28 | with the row present, the toggle deletes exactly that row, returns it and keeps the rest |
| Subscriptions.SubscriptionTwice | backend/src/controllers/subscription.controller.js:16-39 | two toggles answer with opposite outcomes and leave every equality query's count as before; when the first call subscribed, the Subscription rows come back exactly |
| Subscriptions.SubscriptionsStayUnique | backend/src/controllers/subscription.controller.js:16-39 | at most one row per `(channel, subscriber)` pair is preserved by every toggle |
| Subscriptions.SubscriberCountMovesByOne | backend/src/controllers/subscription.controller.js:16-39 | a toggle changes the channel's subscriber count by exactly +1 or -1 |
| Subscriptions.SubscriptionStepShaped | backend/src/controllers/subscription.controller.js:29-33 | every Subscription row keeps exactly the fields `channel` and `subscriber` |
| Users.AddToSet | backend/src/controllers/video.controller.js:82-86 | `$addToSet` leaves the element present, adds nothing else, changes nothing if it was already there, grows the array by at most one as an extension, and keeps it duplicate-free |
| Users.AddToWatchHistory | backend/src/controllers/video.controller.js:82-87 | only the named user's watch history changes, and an unknown user id changes nothing |
| Playlists.SchemaAllowsRepeatsWithoutDescription | backend/src/models/playlist.model.js:3-23 | the schema requires name and owner, but accepts a playlist without a description whose videos repeat |
| Playlists.Save | backend/src/models/playlist.model.js:3-23 | `save()` accepts exactly the records that conform to the schema and stores them unchanged; the rejected ones end in a 500 |
| Playlists.NewPlaylist | backend/src/controllers/playlist.controller.js:13-27 | a missing or whitespace-only name gives 400, and a missing caller 401; otherwise the stored playlist conforms to the schema, with the trimmed name, the trimmed description or "", the caller as owner and no videos |
| Playlists.PlaylistById | backend/src/controllers/playlist.controller.js:69-90 | found exactly for a valid, stored id; 404 exactly for a valid unknown id, 400 otherwise |
| Playlists.UserPlaylists | backend/src/controllers/playlist.controller.js:41-67 | 400 for a missing or malformed id, 404 for an unknown user, otherwise exactly the playlists that user owns |
| Playlists.Includes | backend/src/controllers/playlist.controller.js:111 | `includes` holds only for an id string that is listed, never for a query object |
| Playlists.AppendAsWritten | backend/src/controllers/playlist.controller.js:106-116 | as written, the add always succeeds and appends the id at the end, keeping the earlier entries |
| Playlists.AppendChecked | backend/src/controllers/playlist.controller.js:111-116 | with the intended guard: 400 exactly when the id is listed, otherwise appended at the end; a duplicate-free list stays duplicate-free |
| Playlists.DuplicateGuardNeverFires | backend/src/controllers/playlist.controller.js:106-113 | as written, adding a listed id succeeds and lists it once more |
| Playlists.Without | backend/src/controllers/playlist.controller.js:150-152 | the filter drops every occurrence of the id and keeps every other id as often as before |
| Playlists.WithoutConcat | backend/src/controllers/playlist.controller.js:150-152 | the filter distributes over concatenation, so the remaining ids keep their relative order |
| Playlists.WithoutSingle | backend/src/controllers/playlist.controller.js:150-152 | on a single id, the filter keeps it exactly when it differs from the removed id |
| Playlists.WithoutAbsent | backend/src/controllers/playlist.controller.js:150-152 | filtering out an id that is not listed changes nothing |
| Playlists.RemoveListed | backend/src/controllers/playlist.controller.js:146-153 | an id that is not listed gives 400; otherwise the list without it, strictly shorter |
| Playlists.AddThenRemove | backend/src/controllers/playlist.controller.js:111-153 | with the intended guard, adding an unlisted id and then removing it restores the list |
| Playlists.AddTwiceRemoveOnce | backend/src/controllers/playlist.controller.js:106-153 | as written, a video added twice is listed twice, and a single removal takes out both copies |
| Playlists.CheckIds | backend/src/controllers/playlist.controller.js:94-104 | the shared checks pass exactly for two valid ids with a stored playlist; 404 exactly when only the playlist is missing |
| Playlists.CreatePlaylist | backend/src/controllers/playlist.controller.js:10-39 | stores `NewPlaylist`'s result under a fresh id and otherwise changes nothing; schema conformance of the store is kept |
| Playlists.AddVideoToPlaylist | backend/src/controllers/playlist.controller.js:92-123 | succeeds exactly when the id checks pass and the stored playlist conforms to the schema; id errors answer 400 or 404, and a failing save answers 500; any error leaves the store unchanged; on success the id is appended and the playlist is saved |
| Playlists.AddVideoToPlaylistIntended | backend/src/controllers/playlist.controller.js:92-123 | the same handler with the guard comparing ids: succeeds exactly when the id checks pass, the id is not yet listed and the playlist conforms; an already-listed id gives 400, and a failing save 500, each with no change; duplicate-free lists stay so |
| Playlists.RemoveVideoFromPlaylist | backend/src/controllers/playlist.controller.js:125-162 | succeeds exactly when the id checks pass, the video is listed and the playlist conforms; id errors give 400 or 404, an unlisted video gives 400, and a failing save 500, each with no change; on success every occurrence is removed and the playlist is saved |
| Playlists.DeletePlaylist | backend/src/controllers/playlist.controller.js:164-185 | 400 for a missing or malformed id, 404 for an unknown one; otherwise exactly that playlist is removed |
| Playlists.UpdatePlaylist | backend/src/controllers/playlist.controller.js:187-216 | succeeds exactly for a valid id of a stored playlist with a truthy name or description; 400 for a malformed id or when neither field is truthy, 404 for an unknown playlist; otherwise `$set` writes only the fields given, keeping videos and owner; conformance is kept unless the name given is "" |
| Videos.FirstPath | backend/src/controllers/video.controller.js:21-22 | reading `parts[0]?.path` throws exactly when the field is missing; the path is truthy exactly when the field has a first part with a path |
| Videos.NewVideo | backend/src/controllers/video.controller.js:15-58 | a missing title or description gives 400 before any upload; no files gives 400; files lacking a field throws (500); with both fields present, a missing path gives 400; with both paths present, a failed upload gives 500. Success happens exactly when all are present, and the video has views 0, is published, is owned by the caller, and takes its URLs and duration from the uploads |
| Videos.PublishVideo | backend/src/controllers/video.controller.js:41-50 | on success stores `NewVideo`'s record under a fresh id; on any error no Video record is created |
| Videos.FetchVideo | backend/src/controllers/video.controller.js:60-97 | "undefined" gives 400, another malformed id 500, and an unknown id 404, each with no change; a found video gains exactly one view and nothing else, and a signed-in viewer's watch history gets the id by `$addToSet` |
| Videos.GetVideoById | backend/src/controllers/video.controller.js:60-97 | the handler on the Video and User collection objects has exactly `FetchVideo`'s answer and new state |
| Videos.FetchRepeatedCounts | backend/src/controllers/video.controller.js:76-90 | n fetches add n views and change no other video; anonymous fetches change no user; a signed-in viewer's history then lists the video and stays duplicate-free; no other user changes |
| Videos.WatchedOnce | backend/src/controllers/video.controller.js:81-90 | however many times it is watched, the video's id is in a duplicate-free watch history exactly once |
| Tweets.IndexOf | backend/src/controllers/tweet.controller.js:64 | finding a tweet by id returns the first position holding that id, or nothing exactly when no tweet has it |
| Tweets.NewTweet | backend/src/controllers/tweet.controller.js:10-17 | empty content gives 400; otherwise the tweet has that content and the caller as owner |
| Tweets.CreateTweet | backend/src/controllers/tweet.controller.js:8-30 | appends `NewTweet`'s record on success and keeps tweet ids unique; otherwise no change |
| Tweets.OwnedBy | backend/src/controllers/tweet.controller.js:37-38 | exactly the owner's tweets, each as many times as stored |
| Tweets.InsertByDate | backend/src/controllers/tweet.controller.js:39 | inserting into a newest-first list keeps it newest-first and adds exactly that tweet |
| Tweets.SortNewestFirst | backend/src/controllers/tweet.controller.js:39 | the sort returns the same tweets (a permutation), ordered by `createdAt` descending |
| Tweets.UserTweets | backend/src/controllers/tweet.controller.js:31-52 | a missing caller id gives 400; otherwise exactly the caller's tweets, as often as stored, ordered by `createdAt` descending |
| Tweets.UpdateChangesOnlyContent | backend/src/controllers/tweet.controller.js:57-74 | 400 without an id or content and 404 for an unknown tweet, with no change; on success only that tweet's `content` is replaced, and all other tweets and fields are unchanged |
| Tweets.UpdateKeepsIdsUnique | backend/src/controllers/tweet.controller.js:64-70 | an update keeps tweet ids unique |
| Tweets.DeleteRemovesExactlyOne | backend/src/controllers/tweet.controller.js:85-95 | 400 for a missing id and 404 for an unknown one, with no change; otherwise exactly the named tweet is removed and returned, every other tweet stays and no tweet with that id is left |
| Tweets.UpdateTweet | backend/src/controllers/tweet.controller.js:53-82 | the handler on the collection object has exactly the update step's answer and new state, and keeps ids unique |
| Tweets.DeleteTweet | backend/src/controllers/tweet.controller.js:84-103 | the handler on the collection object has exactly the delete step's answer and new state, and keeps ids unique |
| DashboardCard.NatToString | frontend/src/components/DashboardVideoCard.jsx:59 | `String(n)` is a non-empty string of decimal digits, a single digit exactly below ten, and starts with '0' only for zero (no leading zeros) |
| DashboardCard.ParseNatToString | frontend/src/components/DashboardVideoCard.jsx:59 | a rendered number reads back as that number |
| DashboardCard.PadTwo | frontend/src/components/DashboardVideoCard.jsx:59 | `padStart(2, '0')` puts exactly as many '0's in front of a shorter string as make it two characters long, and leaves a string of two or more alone |
| DashboardCard.FormatDuration | frontend/src/components/DashboardVideoCard.jsx:59 | a missing or zero duration renders "0:00"; otherwise floor(d/60), then ':', then exactly two digits whose value is d % 60 |
| DashboardCard.ColonAt | frontend/src/components/DashboardVideoCard.jsx:59 | finds the first ':' of a label, or reports that there is none |
| DashboardCard.DurationRoundTrip | frontend/src/components/DashboardVideoCard.jsx:59 | for every whole-second duration, minutes times 60 plus seconds is the duration: the label parses back to it |
| DashboardCard.TogglePublishCopy | frontend/src/components/DashboardVideoCard.jsx:29 | the copy passed to `onUpdate` has `isPublished` negated and every other field identical |
| DashboardCard.TogglePublishInvolution | frontend/src/components/DashboardVideoCard.jsx:29 | toggling the copy twice gives back the original record |
| DashboardCard.ToggleFlipsBadge | frontend/src/components/DashboardVideoCard.jsx:61-75 | the publish toggle flips whether the PRIVATE badge shows |

## Left out

- `getAllVideos`, `getLikedVideos`, `deleteVideo` and `togglePublishStatus` are empty stubs in the source, so there is no behaviour to model.
- `updateVideo` is left out because its body refers to undeclared `title` and `description`, and it never sends a response.
- Delete-first double toggles: when the first of two like or subscription toggles deletes a row, the second creates the row anew through `create`, with a fresh `_id` and at the end of the collection. So the rows are not restored exactly; only every equality query's count is, as the double-toggle lemmas state.
- Concurrency: the check-then-act race between two concurrent toggles is not modelled; every handler runs alone, in sequence.
- Uploads to Cloudinary (backend/src/utils/cloudinary.js) are a network call. Each upload's answer is a parameter: `None` for the `null` it returns on an empty path or an error. The local temporary files are not modelled.
- The clock and id generation are parameters:
  - A new document's id is a `freshId` argument that must not be in use.
  - A tweet's `createdAt` is a `now` argument.
  - Like and Subscription rows take ids from a counter.
- Authentication is reduced to the caller's id. `req.user` being set, tokens and cookies are not modelled. In the Like, Subscription and Tweet handlers, the caller's id is assumed present.
- Mongoose details that are not modelled:
  - `populate` and `select` projections;
  - `__v` and timestamps other than a tweet's `createdAt`;
  - case-insensitive ObjectId comparison (ids are compared as strings);
  - the Like and Tweet schemas, which are not part of this model. In particular, whether strict mode drops the `tweetId`/`userId` fields of a created tweet like; either way the lookup never matches them.
- Library versions: no package manifest is part of this model, so three behaviours are taken from current releases.
  - `IsValidId` is `ObjectId.isValid` as in bson 6 (Mongoose 8): only 24 hexadecimal characters. Older bson releases also accept any 12-character string, and that is not modelled.
  - `Playlists.UpdatePlaylist` relies on Mongoose dropping `undefined` keys from a `$set`, as Mongoose 6 and later do. Mongoose 5 turned such a key into `null`, which would clear the field that was not given.
  - Request bodies are taken to hold strings or nothing. A non-string `name` such as `123` is truthy but has no `trim`, so `createPlaylist` throws a 500 at playlist.controller.js:13, and that path is not modelled.
- Validators of the Video collection are not modelled: video.model.js is not part of this model, so both `Video.create` in `publishAVideo` and `await video.save()` in `getVideoById` (video.controller.js:77) are taken to succeed.
- Playlists.UserPlaylists: returns a map, so the order MongoDB returns playlists in is not modelled.
- Tweets.SortNewestFirst: which of two tweets with equal `createdAt` comes first is whatever the insertion sort gives. MongoDB does not fix that order either.
- Videos.NewVideo: durations are whole seconds; the fractional seconds the media host reports are not modelled.
- DashboardCard.FormatDuration: `duration` is a whole number of seconds; the label for fractional durations is not modelled.
- The React rendering, state hooks, services and the rest of the frontend are user interface, not modelled.

## Findings

| source | as written | input that shows it | evidently intended | confidence | as-written member | corrected member |
|---|---|---|---|---|---|---|
| backend/src/controllers/like.controller.js:96-114 | looks up `{tweet, likedBy}` but creates `{tweetId, userId}`, so the lookup never finds a created like | any valid tweet id toggled twice by one user: both calls answer Liked = true and two rows are added | create `{tweet, likedBy}`, so that a second toggle removes the like | not executed | Likes.TweetLikeAlwaysCreates | Likes.TweetLikeIntendedTwice |
| backend/src/controllers/playlist.controller.js:106-113 | the duplicate guard compares the stored ids with the un-awaited `Video.findById` query object and never fires | adding a video id already in the playlist succeeds and lists it twice | refuse an already-listed id with 400 | not executed | Playlists.DuplicateGuardNeverFires | Playlists.AppendChecked |
