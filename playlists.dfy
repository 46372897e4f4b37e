/** The Playlist schema and the playlist controller over the Playlist
    collection. */
module Playlists {
  import opened Common
  import opened Text
  import Users

  /** A Playlist document: required name and owner, optional description,
      and an ordered list of Video ids. */
  datatype Playlist = Playlist(name: string, description: Option<string>, videos: seq<Id>, owner: Id)

  /** What the schema validates on save: `required` rejects an empty name
      and a missing owner. The description may be absent, and nothing makes
      `videos` duplicate-free. */
  predicate Conforms(p: Playlist)
  {
    p.name != "" && p.owner != ""
  }

  /** `save()`: the schema's validators run first, so a record that does
      not conform is not written and the request ends in a 500. */
  function Save(p: Playlist): (r: Result<Playlist>)
    ensures r.Ok? <==> Conforms(p)
    ensures r.Ok? ==> r.value == p
    ensures r.Err? ==> r.error == ServerError
  {
    if Conforms(p) then Ok(p) else Err(ServerError)
  }

  predicate AllConform(docs: map<Id, Playlist>)
  {
    forall id :: id in docs ==> Conforms(docs[id])
  }

  class PlaylistCollection {
    var docs: map<Id, Playlist>

    constructor (playlists: map<Id, Playlist>)
      ensures docs == playlists
    {
      docs := playlists;
    }
  }

  /** The schema lets a playlist go without a description and list a video
      twice. */
  lemma SchemaAllowsRepeatsWithoutDescription(owner: Id, v: Id)
    requires owner != ""
    ensures Conforms(Playlist("mix", None, [v, v], owner))
  {
  }

  /** The record `createPlaylist` builds: the name must be present and not
      whitespace-only (400), the caller must be known (401); name and
      description are stored trimmed, a missing description as "". */
  function NewPlaylist(name: Option<string>, description: Option<string>, caller: Option<Id>): (r: Result<Playlist>)
    ensures r == Err(BadRequest) <==> !Truthy(name) || AllWhitespace(name.value)
    ensures r == Err(Unauthorized) <==> Truthy(name) && !AllWhitespace(name.value) && !Truthy(caller)
    ensures r.Ok? <==> Truthy(name) && !AllWhitespace(name.value) && Truthy(caller)
    ensures r.Ok? ==> && Conforms(r.value)
                      && r.value.name == Trim(name.value)
                      && r.value.description == Some(if Truthy(description) then Trim(description.value) else "")
                      && r.value.videos == []
                      && r.value.owner == caller.value
  {
    if !Truthy(name) then Err(BadRequest)
    else
      TrimEmptyIff(name.value);
      if Trim(name.value) == "" then Err(BadRequest)
      else if !Truthy(caller) then Err(Unauthorized)
      else Ok(Playlist(Trim(name.value),
                       Some(if Truthy(description) then Trim(description.value) else ""),
                       [], caller.value))
  }

  /** `getPlaylistById`: 400 for a missing or malformed id, 404 for an
      unknown one. */
  function PlaylistById(docs: map<Id, Playlist>, playlistId: string): (r: Result<Playlist>)
    ensures !IsValidId(playlistId) ==> r == Err(BadRequest)
    ensures r.Ok? <==> IsValidId(playlistId) && playlistId in docs
    ensures r.Ok? ==> r.value == docs[playlistId]
    ensures r.Err? ==> (r.error == NotFound <==> IsValidId(playlistId))
  {
    if playlistId == "" then Err(BadRequest)
    else if !IsValidId(playlistId) then Err(BadRequest)
    else if playlistId !in docs then Err(NotFound)
    else Ok(docs[playlistId])
  }

  /** `getUserPlaylists`: 400 for a missing or malformed user id, 404 for an
      unknown user, else exactly the playlists that user owns. */
  function UserPlaylists(docs: map<Id, Playlist>, users: map<Id, Users.User>, userId: string): (r: Result<map<Id, Playlist>>)
    ensures !IsValidId(userId) ==> r == Err(BadRequest)
    ensures r.Ok? <==> IsValidId(userId) && userId in users
    ensures r.Err? ==> (r.error == NotFound <==> IsValidId(userId))
    ensures r.Ok? ==> forall id :: id in r.value <==> id in docs && docs[id].owner == userId
    ensures r.Ok? ==> forall id :: id in r.value ==> r.value[id] == docs[id]
  {
    if userId == "" then Err(BadRequest)
    else if !IsValidId(userId) then Err(BadRequest)
    else if userId !in users then Err(NotFound)
    else Ok(map id | id in docs && docs[id].owner == userId :: docs[id])
  }

  /** What `playlist.videos.includes(...)` is handed: an id string, or the
      Query object that `Video.findById(videoId)` returns when not awaited. */
  datatype Probe = IdValue(id: Id) | PendingQuery(id: Id)

  /** Mongoose's array `includes`: an id string is compared with the stored
      ids; a Query object equals none of them. */
  function Includes(videos: seq<Id>, probe: Probe): (r: bool)
    ensures r <==> probe.IdValue? && probe.id in videos
  {
    match probe
    case IdValue(id) => id in videos
    case PendingQuery(_) => false
  }

  /** The duplicate guard and `push`: 400 if `includes(probe)`, otherwise
      `videoId` goes on the end. */
  function GuardedAppend(videos: seq<Id>, videoId: Id, probe: Probe): (r: Result<seq<Id>>)
    ensures r.Err? <==> Includes(videos, probe)
    ensures r.Err? ==> r.error == BadRequest
    ensures r.Ok? ==> |r.value| == |videos| + 1 && r.value[..|videos|] == videos && r.value[|videos|] == videoId
  {
    if Includes(videos, probe) then Err(BadRequest)
    else
      var appended := videos + [videoId];
      assert appended[..|videos|] == videos;
      Ok(appended)
  }

  /** addVideoToPlaylist as written: the guard is handed the un-awaited
      query, so it always lets the id through. */
  function AppendAsWritten(videos: seq<Id>, videoId: Id): (r: Result<seq<Id>>)
    ensures r.Ok?
    ensures |r.value| == |videos| + 1 && r.value[..|videos|] == videos && r.value[|videos|] == videoId
  {
    GuardedAppend(videos, videoId, PendingQuery(videoId))
  }

  /** addVideoToPlaylist as evidently intended: an id already listed is
      refused with 400, so a duplicate-free list stays duplicate-free. */
  function AppendChecked(videos: seq<Id>, videoId: Id): (r: Result<seq<Id>>)
    ensures r.Err? <==> videoId in videos
    ensures r.Err? ==> r.error == BadRequest
    ensures r.Ok? ==> |r.value| == |videos| + 1 && r.value[..|videos|] == videos && r.value[|videos|] == videoId
    ensures r.Ok? && NoDup(videos) ==> NoDup(r.value)
  {
    GuardedAppend(videos, videoId, IdValue(videoId))
  }

  /** As written, adding an id that is already listed succeeds and lists it
      once more. */
  lemma DuplicateGuardNeverFires(videos: seq<Id>, videoId: Id)
    requires videoId in videos
    ensures AppendAsWritten(videos, videoId).Ok?
    ensures Occurrences(AppendAsWritten(videos, videoId).value, videoId) == Occurrences(videos, videoId) + 1 >= 2
  {
    var r := AppendAsWritten(videos, videoId).value;
    assert r == videos + [videoId];
    OccurrencesAppend(videos, videoId, videoId);
  }

  /** `videos.filter(vid => vid.toString() !== videoId)`: every occurrence of
      `videoId` dropped, every other id kept as often as before and in the
      same relative order. */
  function Without(videos: seq<Id>, videoId: Id): (r: seq<Id>)
    ensures videoId !in r
    ensures forall x :: x != videoId ==> Occurrences(r, x) == Occurrences(videos, x)
    ensures |r| + Occurrences(videos, videoId) == |videos|
  {
    if videos == [] then []
    else
      var last := videos[|videos| - 1];
      var init := Without(videos[..|videos| - 1], videoId);
      if last == videoId then
        assert forall x :: Occurrences(videos, x) == Occurrences(videos[..|videos| - 1], x) + (if last == x then 1 else 0);
        init
      else
        var r := init + [last];
        assert r[..|r| - 1] == init;
        assert forall x :: Occurrences(r, x) == Occurrences(init, x) + (if last == x then 1 else 0);
        r
  }

  /** Filtering distributes over concatenation, so `Without` keeps the
      remaining ids in their original order: together with its value on a
      single element this determines it completely. */
  lemma {:induction false} WithoutConcat(a: seq<Id>, b: seq<Id>, videoId: Id)
    ensures Without(a + b, videoId) == Without(a, videoId) + Without(b, videoId)
    decreases |b|
  {
    if b == [] {
      assert a + b == a;
    } else {
      var b' := b[..|b| - 1];
      assert (a + b)[..|a + b| - 1] == a + b';
      WithoutConcat(a, b', videoId);
    }
  }

  /** On one element `Without` keeps it exactly when it differs. */
  lemma WithoutSingle(x: Id, videoId: Id)
    ensures Without([x], videoId) == if x == videoId then [] else [x]
  {
    assert [x][..0] == [];
  }

  /** removeVideoFromPlaylist's membership step: 400 when the id is not
      listed, otherwise every occurrence removed. */
  function RemoveListed(videos: seq<Id>, videoId: Id): (r: Result<seq<Id>>)
    ensures r.Err? <==> videoId !in videos
    ensures r.Err? ==> r.error == BadRequest
    ensures r.Ok? ==> r.value == Without(videos, videoId) && |r.value| < |videos|
  {
    if videoId !in videos then Err(BadRequest) else Ok(Without(videos, videoId))
  }

  /** Removing an id that is not listed changes nothing. */
  lemma {:induction false} WithoutAbsent(videos: seq<Id>, videoId: Id)
    requires videoId !in videos
    ensures Without(videos, videoId) == videos
  {
    if videos != [] {
      var init := videos[..|videos| - 1];
      assert videos == init + [videos[|videos| - 1]];
      WithoutAbsent(init, videoId);
    }
  }

  /** With the intended guard, adding an id and then removing it gives back
      the original list. */
  lemma AddThenRemove(videos: seq<Id>, videoId: Id)
    requires videoId !in videos
    ensures AppendChecked(videos, videoId).Ok?
    ensures RemoveListed(AppendChecked(videos, videoId).value, videoId) == Ok(videos)
  {
    var added := AppendChecked(videos, videoId).value;
    assert added == videos + [videoId];
    WithoutConcat(videos, [videoId], videoId);
    WithoutSingle(videoId, videoId);
    WithoutAbsent(videos, videoId);
  }

  /** As written, a video added twice is listed twice, and one removal then
      takes out both copies. */
  lemma AddTwiceRemoveOnce(videos: seq<Id>, videoId: Id)
    requires videoId !in videos
    ensures var once := AppendAsWritten(videos, videoId).value;
            var twice := AppendAsWritten(once, videoId).value;
            && Occurrences(twice, videoId) == 2
            && RemoveListed(twice, videoId) == Ok(videos)
  {
    var twice := videos + [videoId] + [videoId];
    assert AppendAsWritten(AppendAsWritten(videos, videoId).value, videoId).value == twice;
    OccurrencesAppend(videos, videoId, videoId);
    OccurrencesAppend(videos + [videoId], videoId, videoId);
    WithoutConcat(videos, [videoId, videoId], videoId);
    assert twice == videos + [videoId, videoId];
    assert [videoId, videoId] == [videoId] + [videoId];
    WithoutConcat([videoId], [videoId], videoId);
    WithoutSingle(videoId, videoId);
    WithoutAbsent(videos, videoId);
  }

  /** Validation shared by add and remove: both ids present and well-formed
      (400), then the playlist must exist (404). */
  function CheckIds(docs: map<Id, Playlist>, playlistId: string, videoId: string): (r: Option<ApiError>)
    ensures r.None? <==> IsValidId(playlistId) && IsValidId(videoId) && playlistId in docs
    ensures r == Some(NotFound) <==> IsValidId(playlistId) && IsValidId(videoId) && playlistId !in docs
  {
    if playlistId == "" || videoId == "" then Some(BadRequest)
    else if !IsValidId(playlistId) || !IsValidId(videoId) then Some(BadRequest)
    else if playlistId !in docs then Some(NotFound)
    else None
  }

  method CreatePlaylist(c: PlaylistCollection, name: Option<string>, description: Option<string>,
                        caller: Option<Id>, freshId: Id) returns (r: Result<Playlist>)
    requires freshId !in c.docs
    modifies c
    ensures r == NewPlaylist(name, description, caller)
    ensures r.Ok? ==> c.docs == old(c.docs)[freshId := r.value]
    ensures r.Err? ==> c.docs == old(c.docs)
    ensures AllConform(old(c.docs)) ==> AllConform(c.docs)
  {
    if !Truthy(name) {
      return Err(BadRequest);
    }
    TrimEmptyIff(name.value);
    if Trim(name.value) == "" {
      return Err(BadRequest);
    }
    if !Truthy(caller) {
      return Err(Unauthorized);
    }
    var playlist := Playlist(Trim(name.value),
                             Some(if Truthy(description) then Trim(description.value) else ""),
                             [], caller.value);
    c.docs := c.docs[freshId := playlist];
    r := Ok(playlist);
  }

  /** addVideoToPlaylist as written: the duplicate guard never fires, so
      every request that passes the id checks appends, unless the stored
      playlist fails validation on save. */
  method AddVideoToPlaylist(c: PlaylistCollection, playlistId: string, videoId: string) returns (r: Result<Playlist>)
    modifies c
    ensures r.Ok? <==> CheckIds(old(c.docs), playlistId, videoId).None? && Conforms(old(c.docs)[playlistId])
    ensures CheckIds(old(c.docs), playlistId, videoId).Some? ==>
              r == Err(CheckIds(old(c.docs), playlistId, videoId).value)
    ensures CheckIds(old(c.docs), playlistId, videoId).None? && !Conforms(old(c.docs)[playlistId]) ==>
              r == Err(ServerError)
    ensures r.Err? ==> c.docs == old(c.docs)
    ensures r.Ok? ==> var p := old(c.docs)[playlistId];
                      && r.value == p.(videos := AppendAsWritten(p.videos, videoId).value)
                      && c.docs == old(c.docs)[playlistId := r.value]
    ensures AllConform(old(c.docs)) ==> AllConform(c.docs)
  {
    var failure := CheckIds(c.docs, playlistId, videoId);
    if failure.Some? {
      return Err(failure.value);
    }
    var playlist := c.docs[playlistId];
    // `Video.findById(videoId)` without `await`: a Query object, which is
    // always truthy, so the "Video not found" branch cannot be taken.
    var video := PendingQuery(videoId);
    if Includes(playlist.videos, video) {
      return Err(BadRequest);
    }
    playlist := playlist.(videos := playlist.videos + [videoId]);
    var saved := Save(playlist);
    if saved.Err? {
      return Err(saved.error);
    }
    c.docs := c.docs[playlistId := playlist];
    r := Ok(playlist);
  }

  /** addVideoToPlaylist with the guard comparing `videoId`. */
  method AddVideoToPlaylistIntended(c: PlaylistCollection, playlistId: string, videoId: string) returns (r: Result<Playlist>)
    modifies c
    ensures r.Ok? <==> && CheckIds(old(c.docs), playlistId, videoId).None?
                       && videoId !in old(c.docs)[playlistId].videos && Conforms(old(c.docs)[playlistId])
    ensures CheckIds(old(c.docs), playlistId, videoId).Some? ==>
              r == Err(CheckIds(old(c.docs), playlistId, videoId).value)
    ensures CheckIds(old(c.docs), playlistId, videoId).None? && videoId in old(c.docs)[playlistId].videos ==>
              r == Err(BadRequest)
    ensures (&& CheckIds(old(c.docs), playlistId, videoId).None? && videoId !in old(c.docs)[playlistId].videos
             && !Conforms(old(c.docs)[playlistId])) ==> r == Err(ServerError)
    ensures r.Err? ==> c.docs == old(c.docs)
    ensures r.Ok? ==> var p := old(c.docs)[playlistId];
                      && r.value == p.(videos := AppendChecked(p.videos, videoId).value)
                      && c.docs == old(c.docs)[playlistId := r.value]
    ensures r.Ok? && NoDup(old(c.docs)[playlistId].videos) ==> NoDup(c.docs[playlistId].videos)
  {
    var failure := CheckIds(c.docs, playlistId, videoId);
    if failure.Some? {
      return Err(failure.value);
    }
    var playlist := c.docs[playlistId];
    var appended := AppendChecked(playlist.videos, videoId);
    if appended.Err? {
      return Err(appended.error);
    }
    playlist := playlist.(videos := appended.value);
    var saved := Save(playlist);
    if saved.Err? {
      return Err(saved.error);
    }
    c.docs := c.docs[playlistId := playlist];
    r := Ok(playlist);
  }

  /** removeVideoFromPlaylist: the ids are checked as for an add, an
      unlisted video is a 400, and the filtered list is saved. */
  method RemoveVideoFromPlaylist(c: PlaylistCollection, playlistId: string, videoId: string) returns (r: Result<Playlist>)
    modifies c
    ensures r.Ok? <==> && CheckIds(old(c.docs), playlistId, videoId).None?
                       && videoId in old(c.docs)[playlistId].videos && Conforms(old(c.docs)[playlistId])
    ensures CheckIds(old(c.docs), playlistId, videoId).Some? ==>
              r == Err(CheckIds(old(c.docs), playlistId, videoId).value)
    ensures CheckIds(old(c.docs), playlistId, videoId).None? && videoId !in old(c.docs)[playlistId].videos ==>
              r == Err(BadRequest)
    ensures (&& CheckIds(old(c.docs), playlistId, videoId).None? && videoId in old(c.docs)[playlistId].videos
             && !Conforms(old(c.docs)[playlistId])) ==> r == Err(ServerError)
    ensures r.Err? ==> c.docs == old(c.docs)
    ensures r.Ok? ==> var p := old(c.docs)[playlistId];
                      && r.value == p.(videos := Without(p.videos, videoId))
                      && c.docs == old(c.docs)[playlistId := r.value]
    ensures AllConform(old(c.docs)) ==> AllConform(c.docs)
  {
    var failure := CheckIds(c.docs, playlistId, videoId);
    if failure.Some? {
      return Err(failure.value);
    }
    var playlist := c.docs[playlistId];
    // As in addVideoToPlaylist, the un-awaited query is always truthy.
    var remaining := RemoveListed(playlist.videos, videoId);
    if remaining.Err? {
      return Err(remaining.error);
    }
    playlist := playlist.(videos := remaining.value);
    var saved := Save(playlist);
    if saved.Err? {
      return Err(saved.error);
    }
    c.docs := c.docs[playlistId := playlist];
    r := Ok(playlist);
  }

  method DeletePlaylist(c: PlaylistCollection, playlistId: string) returns (r: Result<()>)
    modifies c
    ensures !IsValidId(playlistId) ==> r == Err(BadRequest)
    ensures IsValidId(playlistId) && playlistId !in old(c.docs) ==> r == Err(NotFound)
    ensures r.Ok? <==> IsValidId(playlistId) && playlistId in old(c.docs)
    ensures r.Ok? ==> c.docs == old(c.docs) - {playlistId}
    ensures r.Err? ==> c.docs == old(c.docs)
  {
    if playlistId == "" {
      return Err(BadRequest);
    }
    if !IsValidId(playlistId) {
      return Err(BadRequest);
    }
    if playlistId !in c.docs {
      return Err(NotFound);
    }
    c.docs := c.docs - {playlistId};
    r := Ok(());
  }

  /** updatePlaylist: `$set` of the name and description given (a field left
      undefined is not written); neither given is a 400. The update runs no
      validators, so a name of "" is stored as it is. */
  method UpdatePlaylist(c: PlaylistCollection, playlistId: string, name: Option<string>,
                        description: Option<string>) returns (r: Result<Playlist>)
    modifies c
    ensures !IsValidId(playlistId) ==> r == Err(BadRequest)
    ensures IsValidId(playlistId) && !Truthy(name) && !Truthy(description) ==> r == Err(BadRequest)
    ensures IsValidId(playlistId) && (Truthy(name) || Truthy(description)) && playlistId !in old(c.docs) ==>
              r == Err(NotFound)
    ensures r.Ok? <==> IsValidId(playlistId) && (Truthy(name) || Truthy(description)) && playlistId in old(c.docs)
    ensures r.Err? ==> c.docs == old(c.docs)
    ensures r.Ok? ==> var p := old(c.docs)[playlistId];
                      && r.value.name == (if name.Some? then name.value else p.name)
                      && r.value.description == (if description.Some? then description else p.description)
                      && r.value.videos == p.videos && r.value.owner == p.owner
                      && c.docs == old(c.docs)[playlistId := r.value]
    ensures r.Ok? && name == Some("") ==> r.value.name == ""
    ensures AllConform(old(c.docs)) && name != Some("") ==> AllConform(c.docs)
  {
    if !IsValidId(playlistId) {
      return Err(BadRequest);
    }
    if !Truthy(name) && !Truthy(description) {
      return Err(BadRequest);
    }
    if playlistId !in c.docs {
      return Err(NotFound);
    }
    var playlist := c.docs[playlistId];
    if name.Some? {
      playlist := playlist.(name := name.value);
    }
    if description.Some? {
      playlist := playlist.(description := description);
    }
    c.docs := c.docs[playlistId := playlist];
    r := Ok(playlist);
  }
}
