/** The three like toggles of the like controller over the Like collection. */
module Likes {
  import opened Common
  import opened Documents

  /** `{ video: videoId, likedBy: user }` */
  function VideoKey(videoId: Id, user: Id): Filter
  {
    map["video" := videoId, "likedBy" := user]
  }

  /** `{ comment: commentId, likedBy: user }` */
  function CommentKey(commentId: Id, user: Id): Filter
  {
    map["comment" := commentId, "likedBy" := user]
  }

  /** The tweet toggle's lookup, `{ tweet: tweetId, likedBy: user }`. */
  function TweetLookup(tweetId: Id, user: Id): Filter
  {
    map["tweet" := tweetId, "likedBy" := user]
  }

  /** The row the tweet toggle creates, `{ tweetId: tweetId, userId: user }`. */
  function TweetInsert(tweetId: Id, user: Id): map<Field, string>
  {
    map["tweetId" := tweetId, "userId" := user]
  }

  /** The field sets Like rows are created with by the three toggles. */
  predicate LikeShaped(fields: map<Field, string>)
  {
    || fields.Keys == {"video", "likedBy"}
    || fields.Keys == {"comment", "likedBy"}
    || fields.Keys == {"tweet", "likedBy"}
    || fields.Keys == {"tweetId", "userId"}
  }

  predicate AllLikeShaped(rows: seq<Doc>)
  {
    forall d :: d in rows ==> LikeShaped(d.fields)
  }

  /** The uniqueness invariant of video likes: at most one row per
      (video, likedBy) pair. */
  ghost predicate VideoLikesUnique(rows: seq<Doc>)
  {
    forall v, u :: Count(rows, VideoKey(v, u)) <= 1
  }

  ghost predicate CommentLikesUnique(rows: seq<Doc>)
  {
    forall c, u :: Count(rows, CommentKey(c, u)) <= 1
  }

  /** One like toggle: a missing or malformed subject id is a 400 with the
      store untouched; otherwise the row toggle, reporting `Liked`. */
  function LikeStep(t: Table, subjectId: string, lookup: Filter, insert: map<Field, string>): (Result<bool>, Table)
  {
    if subjectId == "" then (Err(BadRequest), t)
    else if !IsValidId(subjectId) then (Err(BadRequest), t)
    else
      var (o, t') := Toggle(t, lookup, insert);
      (Ok(o.Created?), t')
  }

  function VideoLikeStep(t: Table, videoId: string, user: Id): (Result<bool>, Table)
  {
    LikeStep(t, videoId, VideoKey(videoId, user), VideoKey(videoId, user))
  }

  function CommentLikeStep(t: Table, commentId: string, user: Id): (Result<bool>, Table)
  {
    LikeStep(t, commentId, CommentKey(commentId, user), CommentKey(commentId, user))
  }

  /** The tweet toggle as written: it looks up `{tweet, likedBy}` but creates
      `{tweetId, userId}`. */
  function TweetLikeStep(t: Table, tweetId: string, user: Id): (Result<bool>, Table)
  {
    LikeStep(t, tweetId, TweetLookup(tweetId, user), TweetInsert(tweetId, user))
  }

  /** The tweet toggle as evidently intended: it creates the row it looks up. */
  function TweetLikeStepIntended(t: Table, tweetId: string, user: Id): (Result<bool>, Table)
  {
    LikeStep(t, tweetId, TweetLookup(tweetId, user), TweetLookup(tweetId, user))
  }

  method ToggleVideoLike(likes: Collection, videoId: string, user: Id) returns (r: Result<bool>)
    requires likes.Valid()
    modifies likes
    ensures likes.Valid()
    ensures !IsValidId(videoId) ==> r == Err(BadRequest) && likes.State() == old(likes.State())
    ensures (r, likes.State()) == VideoLikeStep(old(likes.State()), videoId, user)
  {
    if videoId == "" {
      return Err(BadRequest);
    }
    if !IsValidId(videoId) {
      return Err(BadRequest);
    }
    var o := ToggleRow(likes, VideoKey(videoId, user), VideoKey(videoId, user));
    r := Ok(o.Created?);
  }

  method ToggleCommentLike(likes: Collection, commentId: string, user: Id) returns (r: Result<bool>)
    requires likes.Valid()
    modifies likes
    ensures likes.Valid()
    ensures !IsValidId(commentId) ==> r == Err(BadRequest) && likes.State() == old(likes.State())
    ensures (r, likes.State()) == CommentLikeStep(old(likes.State()), commentId, user)
  {
    if commentId == "" {
      return Err(BadRequest);
    }
    if !IsValidId(commentId) {
      return Err(BadRequest);
    }
    var o := ToggleRow(likes, CommentKey(commentId, user), CommentKey(commentId, user));
    r := Ok(o.Created?);
  }

  method ToggleTweetLike(likes: Collection, tweetId: string, user: Id) returns (r: Result<bool>)
    requires likes.Valid()
    modifies likes
    ensures likes.Valid()
    ensures !IsValidId(tweetId) ==> r == Err(BadRequest) && likes.State() == old(likes.State())
    ensures (r, likes.State()) == TweetLikeStep(old(likes.State()), tweetId, user)
  {
    if tweetId == "" {
      return Err(BadRequest);
    }
    if !IsValidId(tweetId) {
      return Err(BadRequest);
    }
    var o := ToggleRow(likes, TweetLookup(tweetId, user), TweetInsert(tweetId, user));
    r := Ok(o.Created?);
  }

  /** toggleTweetLike with the row it creates keyed like its lookup. */
  method ToggleTweetLikeIntended(likes: Collection, tweetId: string, user: Id) returns (r: Result<bool>)
    requires likes.Valid()
    modifies likes
    ensures likes.Valid()
    ensures !IsValidId(tweetId) ==> r == Err(BadRequest) && likes.State() == old(likes.State())
    ensures (r, likes.State()) == TweetLikeStepIntended(old(likes.State()), tweetId, user)
  {
    if tweetId == "" {
      return Err(BadRequest);
    }
    if !IsValidId(tweetId) {
      return Err(BadRequest);
    }
    var o := ToggleRow(likes, TweetLookup(tweetId, user), TweetLookup(tweetId, user));
    r := Ok(o.Created?);
  }

  /** A missing or malformed id is rejected with 400 by all three toggles,
      and the Like store is untouched. */
  lemma BadIdRejected(t: Table, id: string, user: Id)
    requires !IsValidId(id)
    ensures VideoLikeStep(t, id, user) == (Err(BadRequest), t)
    ensures CommentLikeStep(t, id, user) == (Err(BadRequest), t)
    ensures TweetLikeStep(t, id, user) == (Err(BadRequest), t)
  {
  }

  /** A key of one shape determines the whole row of that shape. */
  lemma ShapedMatchIsExact(d: Doc, key: Filter)
    requires LikeShaped(d.fields) && Matches(d, key)
    requires key.Keys == {"video", "likedBy"} || key.Keys == {"comment", "likedBy"}
    ensures d.fields == key
  {
    assert key.Keys <= d.fields.Keys;
    SameKeysMatchIsExact(d, key);
  }

  /** With no (video, likedBy) row, the toggle creates exactly that row at
      the end and answers Liked = true. */
  lemma VideoLikeCreates(t: Table, videoId: Id, user: Id)
    requires IsValidId(videoId) && Count(t.rows, VideoKey(videoId, user)) == 0
    ensures var (r, t') := VideoLikeStep(t, videoId, user);
            && r == Ok(true)
            && t'.rows == t.rows + [Doc(t.nextId, VideoKey(videoId, user))]
            && Count(t'.rows, VideoKey(videoId, user)) == 1
  {
    ToggleCount(t, VideoKey(videoId, user), VideoKey(videoId, user), VideoKey(videoId, user));
  }

  /** With a (video, likedBy) row present, the toggle deletes that one row,
      answers Liked = false and keeps every other row. */
  lemma VideoLikeDeletes(t: Table, videoId: Id, user: Id)
    requires WellFormed(t) && IsValidId(videoId) && Count(t.rows, VideoKey(videoId, user)) > 0
    ensures var (r, t') := VideoLikeStep(t, videoId, user);
            && r == Ok(false)
            && (exists i :: 0 <= i < |t.rows| && Matches(t.rows[i], VideoKey(videoId, user))
                            && t'.rows == RemoveAt(t.rows, i))
            && forall d :: Matches(d, VideoKey(videoId, user)) || (d in t'.rows <==> d in t.rows)
  {
    ToggleKeepsOtherRows(t, VideoKey(videoId, user), VideoKey(videoId, user));
  }

  /** Two video-like toggles by the same user restore the Like store: no
      equality query tells the difference, and when the first call liked the
      rows come back exactly. */
  lemma VideoLikeTwice(t: Table, videoId: Id, user: Id)
    requires WellFormed(t) && AllLikeShaped(t.rows) && VideoLikesUnique(t.rows)
    ensures var (r1, t1) := VideoLikeStep(t, videoId, user);
            var (r2, t2) := VideoLikeStep(t1, videoId, user);
            && (IsValidId(videoId) ==> r1.Ok? && r2.Ok? && r1.value == !r2.value)
            && (forall q :: Count(t2.rows, q) == Count(t.rows, q))
            && (r1 == Ok(true) ==> t2.rows == t.rows)
  {
    if IsValidId(videoId) {
      var key := VideoKey(videoId, user);
      forall d | d in t.rows && Matches(d, key) ensures d.fields == key {
        ShapedMatchIsExact(d, key);
      }
      assert Count(t.rows, key) <= 1;
      ToggleWellFormed(t, key, key);
      ToggleTwice(t, key, key);
    }
  }

  /** Sequential toggles keep every like row of the three shapes. */
  lemma LikeStepShaped(t: Table, id: string, lookup: Filter, insert: map<Field, string>)
    requires AllLikeShaped(t.rows) && LikeShaped(insert)
    ensures AllLikeShaped(LikeStep(t, id, lookup, insert).1.rows)
  {
    if IsValidId(id) {
      match FindFirst(t.rows, lookup)
      case Some(i) => RemoveAtSubset(t.rows, i);
      case None =>
    }
  }

  /** A created video-like row is seen by no other (video, likedBy) key. */
  lemma VideoKeyMatchesOnlyItself(n: nat, v: Id, u: Id, v': Id, u': Id)
    ensures Matches(Doc(n, VideoKey(v, u)), VideoKey(v', u')) <==> v == v' && u == u'
  {
    if Matches(Doc(n, VideoKey(v, u)), VideoKey(v', u')) {
      assert "video" in VideoKey(v', u') && "likedBy" in VideoKey(v', u');
    }
  }

  /** A like toggle never duplicates a pair `q` that only its own key can
      create. */
  lemma LikeStepNeverDuplicates(t: Table, id: string, lookup: Filter, insert: map<Field, string>, q: Filter)
    requires Count(t.rows, q) <= 1
    requires Satisfies(insert, q) ==> q == lookup
    ensures Count(LikeStep(t, id, lookup, insert).1.rows, q) <= 1
  {
    if IsValidId(id) {
      ToggleNeverDuplicates(t, lookup, insert, q);
    }
  }

  /** At most one row per (video, likedBy) pair survives every like toggle:
      the video toggle creates a pair only after finding it absent, and the
      comment and tweet toggles create rows without a `video` field. */
  lemma VideoLikesStayUnique(t: Table, id: string, user: Id)
    requires VideoLikesUnique(t.rows)
    ensures VideoLikesUnique(VideoLikeStep(t, id, user).1.rows)
    ensures VideoLikesUnique(CommentLikeStep(t, id, user).1.rows)
    ensures VideoLikesUnique(TweetLikeStep(t, id, user).1.rows)
    ensures VideoLikesUnique(TweetLikeStepIntended(t, id, user).1.rows)
  {
    forall v, u
      ensures Count(VideoLikeStep(t, id, user).1.rows, VideoKey(v, u)) <= 1
      ensures Count(CommentLikeStep(t, id, user).1.rows, VideoKey(v, u)) <= 1
      ensures Count(TweetLikeStep(t, id, user).1.rows, VideoKey(v, u)) <= 1
      ensures Count(TweetLikeStepIntended(t, id, user).1.rows, VideoKey(v, u)) <= 1
    {
      var q := VideoKey(v, u);
      VideoKeyMatchesOnlyItself(0, id, user, v, u);
      assert "video" in q && "video" !in CommentKey(id, user);
      assert "video" !in TweetInsert(id, user) && "video" !in TweetLookup(id, user);
      LikeStepNeverDuplicates(t, id, VideoKey(id, user), VideoKey(id, user), q);
      LikeStepNeverDuplicates(t, id, CommentKey(id, user), CommentKey(id, user), q);
      LikeStepNeverDuplicates(t, id, TweetLookup(id, user), TweetInsert(id, user), q);
      LikeStepNeverDuplicates(t, id, TweetLookup(id, user), TweetLookup(id, user), q);
    }
  }

  /** The same for (comment, likedBy) pairs: only the comment toggle creates
      rows with a `comment` field, and only after finding the pair absent. */
  lemma CommentLikesStayUnique(t: Table, id: string, user: Id)
    requires CommentLikesUnique(t.rows)
    ensures CommentLikesUnique(CommentLikeStep(t, id, user).1.rows)
    ensures CommentLikesUnique(VideoLikeStep(t, id, user).1.rows)
    ensures CommentLikesUnique(TweetLikeStep(t, id, user).1.rows)
    ensures CommentLikesUnique(TweetLikeStepIntended(t, id, user).1.rows)
  {
    forall c, u
      ensures Count(CommentLikeStep(t, id, user).1.rows, CommentKey(c, u)) <= 1
      ensures Count(VideoLikeStep(t, id, user).1.rows, CommentKey(c, u)) <= 1
      ensures Count(TweetLikeStep(t, id, user).1.rows, CommentKey(c, u)) <= 1
      ensures Count(TweetLikeStepIntended(t, id, user).1.rows, CommentKey(c, u)) <= 1
    {
      var q := CommentKey(c, u);
      assert "comment" in q && "likedBy" in q;
      assert "comment" !in VideoKey(id, user);
      assert "comment" !in TweetInsert(id, user) && "comment" !in TweetLookup(id, user);
      LikeStepNeverDuplicates(t, id, CommentKey(id, user), CommentKey(id, user), q);
      LikeStepNeverDuplicates(t, id, VideoKey(id, user), VideoKey(id, user), q);
      LikeStepNeverDuplicates(t, id, TweetLookup(id, user), TweetInsert(id, user), q);
      LikeStepNeverDuplicates(t, id, TweetLookup(id, user), TweetLookup(id, user), q);
    }
  }

  /** A row created by the video toggle is never matched by a comment-like
      lookup, and the reverse: the two kinds never see each other's rows. */
  lemma VideoAndCommentRowsDisjoint(n: nat, v: Id, c: Id, u: Id, u': Id)
    ensures !Matches(Doc(n, VideoKey(v, u)), CommentKey(c, u'))
    ensures !Matches(Doc(n, CommentKey(c, u)), VideoKey(v, u'))
  {
    assert "comment" in CommentKey(c, u') && "comment" !in VideoKey(v, u);
    assert "video" in VideoKey(v, u') && "video" !in CommentKey(c, u);
  }

  /** A comment-like toggle leaves every video-like count unchanged. */
  lemma CommentLikeKeepsVideoLikes(t: Table, commentId: string, user: Id, v: Id, u: Id)
    requires AllLikeShaped(t.rows)
    ensures Count(CommentLikeStep(t, commentId, user).1.rows, VideoKey(v, u)) == Count(t.rows, VideoKey(v, u))
  {
    if IsValidId(commentId) {
      var key := CommentKey(commentId, user);
      var (o, t') := Toggle(t, key, key);
      ToggleCount(t, key, key, VideoKey(v, u));
      if o.Deleted? {
        ShapedMatchIsExact(o.doc, key);
        VideoAndCommentRowsDisjoint(o.doc.id, v, commentId, user, u);
        assert o.doc == Doc(o.doc.id, key);
      } else {
        VideoAndCommentRowsDisjoint(t.nextId, v, commentId, user, u);
      }
    }
  }

  /** The comment toggle has the same involution as the video toggle. */
  lemma CommentLikeTwice(t: Table, commentId: Id, user: Id)
    requires WellFormed(t) && AllLikeShaped(t.rows) && CommentLikesUnique(t.rows)
    ensures var (r1, t1) := CommentLikeStep(t, commentId, user);
            var (r2, t2) := CommentLikeStep(t1, commentId, user);
            && (IsValidId(commentId) ==> r1.Ok? && r2.Ok? && r1.value == !r2.value)
            && (forall q :: Count(t2.rows, q) == Count(t.rows, q))
            && (r1 == Ok(true) ==> t2.rows == t.rows)
  {
    if IsValidId(commentId) {
      var key := CommentKey(commentId, user);
      forall d | d in t.rows && Matches(d, key) ensures d.fields == key {
        ShapedMatchIsExact(d, key);
      }
      assert Count(t.rows, key) <= 1;
      ToggleWellFormed(t, key, key);
      ToggleTwice(t, key, key);
    }
  }

  /** The row the tweet toggle creates lacks `tweet` and `likedBy`, so its own
      lookup never finds it. */
  lemma TweetInsertNeverMatched(n: nat, tweetId: Id, user: Id, tweetId': Id, user': Id)
    ensures !Matches(Doc(n, TweetInsert(tweetId, user)), TweetLookup(tweetId', user'))
  {
    assert "tweet" in TweetLookup(tweetId', user') && "tweet" !in TweetInsert(tweetId, user);
  }

  /** `n` tweet-like toggles in a row by the same user. */
  function TweetLikeRepeated(t: Table, tweetId: string, user: Id, n: nat): Table
    decreases n
  {
    if n == 0 then t else TweetLikeRepeated(TweetLikeStep(t, tweetId, user).1, tweetId, user, n - 1)
  }

  /** As written, starting with no `{tweet, likedBy}` row, every tweet-like
      toggle answers Liked = true, creates a row, and the lookup still finds
      nothing: `n` calls add `n` rows. */
  lemma {:induction false} TweetLikeAlwaysCreates(t: Table, tweetId: Id, user: Id, n: nat)
    requires IsValidId(tweetId) && Count(t.rows, TweetLookup(tweetId, user)) == 0
    ensures TweetLikeStep(t, tweetId, user).0 == Ok(true)
    ensures var t' := TweetLikeRepeated(t, tweetId, user, n);
            |t'.rows| == |t.rows| + n && Count(t'.rows, TweetLookup(tweetId, user)) == 0
    decreases n
  {
    var key := TweetLookup(tweetId, user);
    var t1 := TweetLikeStep(t, tweetId, user).1;
    ToggleCount(t, key, TweetInsert(tweetId, user), key);
    TweetInsertNeverMatched(t.nextId, tweetId, user, tweetId, user);
    if n > 0 {
      TweetLikeAlwaysCreates(t1, tweetId, user, n - 1);
    }
  }

  /** The intended tweet toggle would satisfy the same involution. */
  lemma TweetLikeIntendedTwice(t: Table, tweetId: Id, user: Id)
    requires WellFormed(t) && Count(t.rows, TweetLookup(tweetId, user)) <= 1
    requires forall d :: d in t.rows && Matches(d, TweetLookup(tweetId, user)) ==> d.fields == TweetLookup(tweetId, user)
    ensures var (r1, t1) := TweetLikeStepIntended(t, tweetId, user);
            var (r2, t2) := TweetLikeStepIntended(t1, tweetId, user);
            && (IsValidId(tweetId) ==> r1.Ok? && r2.Ok? && r1.value == !r2.value)
            && (forall q :: Count(t2.rows, q) == Count(t.rows, q))
            && (r1 == Ok(true) ==> t2.rows == t.rows)
  {
    if IsValidId(tweetId) {
      var key := TweetLookup(tweetId, user);
      ToggleWellFormed(t, key, key);
      ToggleTwice(t, key, key);
    }
  }
}
