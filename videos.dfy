/** The video controller's two implemented handlers: publishing an upload
    and fetching a video, which counts a view and records it in the
    viewer's watch history. */
module Videos {
  import opened Common
  import opened Users

  /** A Video document as `publishAVideo` creates it. */
  datatype Video = Video(videoFile: string, thumbnail: string, title: string, description: string,
                         duration: nat, views: nat, isPublished: bool, owner: Id)

  /** What the media host answers for a successful upload. */
  datatype UploadResult = UploadResult(url: string, duration: nat)

  /** One uploaded file as the multipart parser describes it. */
  datatype FilePart = FilePart(path: Option<string>)

  /** `req.files`: one optional array of parts per form field. */
  datatype Files = Files(videoFile: Option<seq<FilePart>>, thumbnail: Option<seq<FilePart>>)

  class VideoCollection {
    var docs: map<Id, Video>

    constructor (videos: map<Id, Video>)
      ensures docs == videos
    {
      docs := videos;
    }
  }

  /** A form field holding at least one part whose first part has a
      non-empty path. */
  predicate HasFile(parts: Option<seq<FilePart>>)
  {
    parts.Some? && |parts.value| > 0 && Truthy(parts.value[0].path)
  }

  /** `parts[0]?.path` once `req.files` is known to be present: indexing a
      missing field throws (Err), an empty array yields undefined. */
  function FirstPath(parts: Option<seq<FilePart>>): (r: Result<Option<string>>)
    ensures r.Err? <==> parts.None?
    ensures r.Err? ==> r.error == ServerError
    ensures r.Ok? ==> (Truthy(r.value) <==> HasFile(parts))
  {
    if parts.None? then Err(ServerError)
    else if parts.value == [] then Ok(None)
    else Ok(parts.value[0].path)
  }

  /** `publishAVideo`: title and description are checked first (400); the
      local paths are then read, where a request with files but without one
      of the two fields throws (500) and a missing path is a 400; a failed
      upload is a 500, and so is a request without an authenticated user,
      whose `_id` cannot be read. The uploads' answers are parameters. */
  function NewVideo(title: Option<string>, description: Option<string>, files: Option<Files>,
                    videoUpload: Option<UploadResult>, thumbnailUpload: Option<UploadResult>,
                    caller: Option<Id>): (r: Result<Video>)
    ensures !Truthy(title) || !Truthy(description) ==> r == Err(BadRequest)
    ensures Truthy(title) && Truthy(description) && files.None? ==> r == Err(BadRequest)
    ensures (&& Truthy(title) && Truthy(description) && files.Some?
             && (files.value.videoFile.None? || files.value.thumbnail.None?)) ==> r == Err(ServerError)
    ensures (&& Truthy(title) && Truthy(description) && files.Some?
             && files.value.videoFile.Some? && files.value.thumbnail.Some?
             && !(HasFile(files.value.videoFile) && HasFile(files.value.thumbnail))) ==> r == Err(BadRequest)
    ensures (&& Truthy(title) && Truthy(description) && files.Some?
             && HasFile(files.value.videoFile) && HasFile(files.value.thumbnail)
             && (videoUpload.None? || thumbnailUpload.None?)) ==> r == Err(ServerError)
    ensures r.Ok? <==> && Truthy(title) && Truthy(description) && files.Some?
                       && HasFile(files.value.videoFile) && HasFile(files.value.thumbnail)
                       && videoUpload.Some? && thumbnailUpload.Some? && caller.Some?
    ensures r.Ok? ==> && r.value.videoFile == videoUpload.value.url
                      && r.value.thumbnail == thumbnailUpload.value.url
                      && r.value.title == title.value && r.value.description == description.value
                      && r.value.duration == videoUpload.value.duration
                      && r.value.views == 0 && r.value.isPublished
                      && r.value.owner == caller.value
  {
    if !Truthy(title) || !Truthy(description) then Err(BadRequest)
    else if files.None? then Err(BadRequest)
    else
      var videoPath := FirstPath(files.value.videoFile);
      if videoPath.Err? then Err(videoPath.error)
      else
        var thumbnailPath := FirstPath(files.value.thumbnail);
        if thumbnailPath.Err? then Err(thumbnailPath.error)
        else if !Truthy(videoPath.value) || !Truthy(thumbnailPath.value) then Err(BadRequest)
        else if videoUpload.None? || thumbnailUpload.None? then Err(ServerError)
        else if caller.None? then Err(ServerError)
        else Ok(Video(videoUpload.value.url, thumbnailUpload.value.url, title.value, description.value,
                      videoUpload.value.duration, 0, true, caller.value))
  }

  /** `getVideoById`: the literal id "undefined" is a 400; any other
      malformed id fails its ObjectId cast (500); an unknown id is a 404.
      A found video gains one view, and a signed-in viewer gets the id added
      to their watch history. */
  function FetchVideo(videos: map<Id, Video>, users: map<Id, User>, videoId: string, viewer: Option<Id>)
    : (r: (Result<Video>, map<Id, Video>, map<Id, User>))
    ensures videoId == "undefined" ==> r.0 == Err(BadRequest)
    ensures videoId != "undefined" && !IsValidId(videoId) ==> r.0 == Err(ServerError)
    ensures r.0.Ok? <==> IsValidId(videoId) && videoId in videos
    ensures r.0 == Err(NotFound) <==> IsValidId(videoId) && videoId !in videos
    ensures r.0.Err? ==> r.1 == videos && r.2 == users
    ensures r.0.Ok? ==> && r.0.value.views == videos[videoId].views + 1
                        && r.0.value == videos[videoId].(views := r.0.value.views)
                        && r.1 == videos[videoId := r.0.value]
    ensures r.0.Ok? && viewer.None? ==> r.2 == users
    ensures r.0.Ok? && viewer.Some? ==> r.2 == AddToWatchHistory(users, viewer.value, videoId)
  {
    if videoId == "undefined" then (Err(BadRequest), videos, users)
    else if !IsValidId(videoId) then (Err(ServerError), videos, users)
    else if videoId !in videos then (Err(NotFound), videos, users)
    else
      var video := videos[videoId];
      var viewed := video.(views := video.views + 1);
      var users' := if viewer.Some? then AddToWatchHistory(users, viewer.value, videoId) else users;
      (Ok(viewed), videos[videoId := viewed], users')
  }

  /** The stores after `n` successive fetches of the same video. */
  function FetchRepeated(videos: map<Id, Video>, users: map<Id, User>, videoId: string, viewer: Option<Id>, n: nat)
    : (r: (map<Id, Video>, map<Id, User>))
    ensures r.0.Keys == videos.Keys && r.1.Keys == users.Keys
    decreases n
  {
    if n == 0 then (videos, users)
    else
      var (_, videos', users') := FetchVideo(videos, users, videoId, viewer);
      FetchRepeated(videos', users', videoId, viewer, n - 1)
  }

  /** Every fetch counts a view, every other video is left alone, and the
      viewer's history lists the video once however often it is watched;
      anonymous fetches never touch the User collection. */
  lemma {:induction false} FetchRepeatedCounts(videos: map<Id, Video>, users: map<Id, User>, videoId: Id,
                                               viewer: Option<Id>, n: nat)
    requires IsValidId(videoId) && videoId in videos
    ensures var (videos', users') := FetchRepeated(videos, users, videoId, viewer, n);
            && videos'.Keys == videos.Keys
            && videos'[videoId].views == videos[videoId].views + n
            && (forall v :: v in videos && v != videoId ==> videos'[v] == videos[v])
            && users'.Keys == users.Keys
            && (viewer.None? ==> users' == users)
            && (forall u :: u in users && Some(u) != viewer ==> users'[u] == users[u])
            && (viewer.Some? && viewer.value in users && n > 0 ==> videoId in users'[viewer.value].watchHistory)
            && (viewer.Some? && viewer.value in users && NoDup(users[viewer.value].watchHistory) ==>
                  NoDup(users'[viewer.value].watchHistory))
    decreases n
  {
    if n > 0 {
      var (_, videos1, users1) := FetchVideo(videos, users, videoId, viewer);
      FetchRepeatedCounts(videos1, users1, videoId, viewer, n - 1);
    }
  }

  /** Watching a video any positive number of times leaves exactly one copy
      of its id in a duplicate-free watch history. */
  lemma WatchedOnce(videos: map<Id, Video>, users: map<Id, User>, videoId: Id, viewer: Id, n: nat)
    requires IsValidId(videoId) && videoId in videos && viewer in users && n > 0
    requires NoDup(users[viewer].watchHistory)
    ensures Occurrences(FetchRepeated(videos, users, videoId, Some(viewer), n).1[viewer].watchHistory, videoId) == 1
  {
    FetchRepeatedCounts(videos, users, videoId, Some(viewer), n);
    var users' := FetchRepeated(videos, users, videoId, Some(viewer), n).1;
    NoDupOccursOnce(users'[viewer].watchHistory, videoId);
  }

  method PublishVideo(c: VideoCollection, title: Option<string>, description: Option<string>, files: Option<Files>,
                      videoUpload: Option<UploadResult>, thumbnailUpload: Option<UploadResult>,
                      caller: Option<Id>, freshId: Id) returns (r: Result<Video>)
    requires freshId !in c.docs
    modifies c
    ensures r == NewVideo(title, description, files, videoUpload, thumbnailUpload, caller)
    ensures r.Ok? ==> c.docs == old(c.docs)[freshId := r.value]
    ensures r.Err? ==> c.docs == old(c.docs)
  {
    r := NewVideo(title, description, files, videoUpload, thumbnailUpload, caller);
    if r.Ok? {
      c.docs := c.docs[freshId := r.value];
    }
  }

  method GetVideoById(videos: VideoCollection, users: UserCollection, videoId: string, viewer: Option<Id>)
    returns (r: Result<Video>)
    modifies videos, users
    ensures (r, videos.docs, users.docs) == FetchVideo(old(videos.docs), old(users.docs), videoId, viewer)
  {
    if videoId == "undefined" {
      return Err(BadRequest);
    }
    if !IsValidId(videoId) {
      return Err(ServerError);
    }
    if videoId !in videos.docs {
      return Err(NotFound);
    }
    var video := videos.docs[videoId];
    video := video.(views := video.views + 1);
    videos.docs := videos.docs[videoId := video];
    if viewer.Some? {
      users.docs := AddToWatchHistory(users.docs, viewer.value, videoId);
    }
    r := Ok(video);
  }
}
