/** The tweet controller: create, the caller's timeline, update and delete
    over the Tweet collection. */
module Tweets {
  import opened Common

  /** A Tweet document; `createdAt` is the creation timestamp. */
  datatype Tweet = Tweet(id: Id, content: string, owner: Id, createdAt: int)

  /** No two tweets share an id. */
  predicate UniqueIds(docs: seq<Tweet>)
  {
    forall i, j :: 0 <= i < j < |docs| ==> docs[i].id != docs[j].id
  }

  predicate HasId(docs: seq<Tweet>, id: Id)
  {
    exists i :: 0 <= i < |docs| && docs[i].id == id
  }

  class TweetCollection {
    var docs: seq<Tweet>

    constructor (tweets: seq<Tweet>)
      ensures docs == tweets
    {
      docs := tweets;
    }
  }

  /** The position of the tweet with the given id, if any. */
  function IndexOf(docs: seq<Tweet>, id: Id): (r: Option<nat>)
    ensures r.None? <==> !HasId(docs, id)
    ensures r.Some? ==> r.value < |docs| && docs[r.value].id == id
    ensures r.Some? ==> forall j :: 0 <= j < r.value ==> docs[j].id != id
  {
    if docs == [] then None
    else if docs[0].id == id then Some(0)
    else
      var rest := IndexOf(docs[1..], id);
      if rest.None? then
        assert forall i :: 0 < i < |docs| ==> docs[i] == docs[1..][i - 1];
        None
      else Some(rest.value + 1)
  }

  /** `createTweet`: empty content is a 400; otherwise a tweet owned by the
      caller, stamped with the current time. */
  function NewTweet(content: Option<string>, caller: Id, freshId: Id, now: int): (r: Result<Tweet>)
    ensures r.Err? <==> !Truthy(content)
    ensures r.Err? ==> r.error == BadRequest
    ensures r.Ok? ==> && r.value.content == content.value && r.value.owner == caller
                      && r.value.id == freshId && r.value.createdAt == now
  {
    if !Truthy(content) then Err(BadRequest) else Ok(Tweet(freshId, content.value, caller, now))
  }

  /** `Tweet.find({ owner })`: the owner's tweets in store order. */
  function OwnedBy(docs: seq<Tweet>, owner: Id): (r: seq<Tweet>)
    ensures forall t :: t in r <==> t in docs && t.owner == owner
    ensures forall t :: multiset(r)[t] == if t.owner == owner then multiset(docs)[t] else 0
  {
    if docs == [] then []
    else
      var init := docs[..|docs| - 1];
      var last := docs[|docs| - 1];
      assert docs == init + [last];
      var rest := OwnedBy(init, owner);
      if last.owner == owner then rest + [last] else rest
  }

  /** Newest first. */
  predicate NewestFirst(s: seq<Tweet>)
  {
    forall i, j :: 0 <= i < j < |s| ==> s[i].createdAt >= s[j].createdAt
  }

  /** A tweet no older than the head of a newest-first sequence may go in
      front of it. */
  lemma PrependNewest(x: Tweet, s: seq<Tweet>)
    requires NewestFirst(s) && (s == [] || x.createdAt >= s[0].createdAt)
    ensures NewestFirst([x] + s)
  {
    var r := [x] + s;
    forall i, j | 0 <= i < j < |r| ensures r[i].createdAt >= r[j].createdAt {
      if i == 0 && j > 1 { assert s[0].createdAt >= s[j - 1].createdAt; }
    }
  }

  /** Places `t` in a newest-first sequence. */
  function InsertByDate(t: Tweet, s: seq<Tweet>): (r: seq<Tweet>)
    requires NewestFirst(s)
    ensures NewestFirst(r)
    ensures multiset(r) == multiset(s) + multiset{t}
    ensures |r| == |s| + 1 && (r[0] == t || (s != [] && r[0] == s[0]))
  {
    if s == [] || s[0].createdAt <= t.createdAt then
      PrependNewest(t, s);
      [t] + s
    else
      var rest := InsertByDate(t, s[1..]);
      assert s == [s[0]] + s[1..];
      PrependNewest(s[0], rest);
      [s[0]] + rest
  }

  /** `.sort({ createdAt: -1 })`: the same tweets, newest first. */
  function SortNewestFirst(s: seq<Tweet>): (r: seq<Tweet>)
    ensures NewestFirst(r)
    ensures multiset(r) == multiset(s)
  {
    if s == [] then []
    else
      assert s == [s[0]] + s[1..];
      InsertByDate(s[0], SortNewestFirst(s[1..]))
  }

  /** `getUserTweets`: a missing caller id is a 400; otherwise exactly the
      caller's tweets, each as often as stored, newest first. */
  function UserTweets(docs: seq<Tweet>, caller: Id): (r: Result<seq<Tweet>>)
    ensures r.Err? <==> caller == ""
    ensures r.Err? ==> r.error == BadRequest
    ensures r.Ok? ==> NewestFirst(r.value)
    ensures r.Ok? ==> forall t :: t in r.value <==> t in docs && t.owner == caller
    ensures r.Ok? ==> forall t :: multiset(r.value)[t] == if t.owner == caller then multiset(docs)[t] else 0
  {
    if caller == "" then Err(BadRequest)
    else
      var sorted := SortNewestFirst(OwnedBy(docs, caller));
      assert forall t :: t in sorted <==> t in multiset(sorted);
      Ok(sorted)
  }

  /** `updateTweet`: a missing id or content is a 400; there is no format
      check, so a malformed id fails its ObjectId cast (500); an unknown id
      is a 404. Otherwise only the tweet's content is replaced. */
  function UpdateStep(docs: seq<Tweet>, tweetId: string, content: Option<string>): (Result<Tweet>, seq<Tweet>)
  {
    if tweetId == "" || !Truthy(content) then (Err(BadRequest), docs)
    else if !IsValidId(tweetId) then (Err(ServerError), docs)
    else match IndexOf(docs, tweetId)
      case None => (Err(NotFound), docs)
      case Some(i) =>
        var updated := docs[i].(content := content.value);
        (Ok(updated), docs[i := updated])
  }

  /** `deleteTweet`: a missing id is a 400, a malformed one a 500 and an
      unknown one a 404; otherwise the tweet is removed and returned. */
  function DeleteStep(docs: seq<Tweet>, tweetId: string): (Result<Tweet>, seq<Tweet>)
  {
    if tweetId == "" then (Err(BadRequest), docs)
    else if !IsValidId(tweetId) then (Err(ServerError), docs)
    else match IndexOf(docs, tweetId)
      case None => (Err(NotFound), docs)
      case Some(i) => (Ok(docs[i]), docs[..i] + docs[i + 1..])
  }

  /** The update answers 400 without an id or content and 404 for an unknown
      tweet; a success rewrites that tweet's content and nothing else. */
  lemma UpdateChangesOnlyContent(docs: seq<Tweet>, tweetId: string, content: Option<string>)
    ensures var (r, docs') := UpdateStep(docs, tweetId, content);
            && (tweetId == "" || !Truthy(content) ==> r == Err(BadRequest))
            && (tweetId != "" && Truthy(content) && IsValidId(tweetId) && !HasId(docs, tweetId) ==> r == Err(NotFound))
            && (r.Ok? <==> Truthy(content) && IsValidId(tweetId) && HasId(docs, tweetId))
            && (r.Err? ==> docs' == docs)
            && |docs'| == |docs|
            && (forall i :: 0 <= i < |docs| && docs[i].id != tweetId ==> docs'[i] == docs[i])
            && (forall i :: 0 <= i < |docs| && docs[i].id == tweetId && r.Ok? ==>
                  docs'[i] == Tweet(docs[i].id, content.value, docs[i].owner, docs[i].createdAt))
            && (r.Ok? ==> r.value.id == tweetId && r.value.content == content.value && r.value in docs')
    requires UniqueIds(docs)
  {
  }

  /** The update keeps ids unique. */
  lemma UpdateKeepsIdsUnique(docs: seq<Tweet>, tweetId: string, content: Option<string>)
    requires UniqueIds(docs)
    ensures UniqueIds(UpdateStep(docs, tweetId, content).1)
  {
  }

  /** A delete of a stored tweet removes exactly that tweet and keeps the
      others in order; an unknown id is a 404 and changes nothing. */
  lemma DeleteRemovesExactlyOne(docs: seq<Tweet>, tweetId: string)
    requires UniqueIds(docs)
    ensures var (r, docs') := DeleteStep(docs, tweetId);
            && (tweetId == "" ==> r == Err(BadRequest))
            && (IsValidId(tweetId) && !HasId(docs, tweetId) ==> r == Err(NotFound))
            && (r.Ok? <==> IsValidId(tweetId) && HasId(docs, tweetId))
            && (r.Err? ==> docs' == docs)
            && (r.Ok? ==> && r.value in docs && r.value.id == tweetId
                          && |docs'| + 1 == |docs|
                          && !HasId(docs', tweetId)
                          && forall t :: t in docs && t.id != tweetId ==> t in docs')
            && UniqueIds(docs')
  {
    var (r, docs') := DeleteStep(docs, tweetId);
    if r.Ok? {
      RemovedAt(docs, IndexOf(docs, tweetId).value);
    }
  }

  /** Dropping position `i` keeps every other tweet and their order. */
  lemma RemovedAt(docs: seq<Tweet>, i: nat)
    requires i < |docs| && UniqueIds(docs)
    ensures var docs' := docs[..i] + docs[i + 1..];
            && (forall k :: 0 <= k < |docs'| ==> docs'[k] == if k < i then docs[k] else docs[k + 1])
            && (forall t :: t in docs && t.id != docs[i].id ==> t in docs')
            && UniqueIds(docs') && !HasId(docs', docs[i].id)
  {
    var docs' := docs[..i] + docs[i + 1..];
    assert forall k :: 0 <= k < |docs'| ==> docs'[k] == if k < i then docs[k] else docs[k + 1];
    forall t | t in docs && t.id != docs[i].id ensures t in docs' {
      var k :| 0 <= k < |docs| && docs[k] == t;
      if k < i { assert docs'[k] == t; } else { assert docs'[k - 1] == t; }
    }
  }

  method CreateTweet(c: TweetCollection, content: Option<string>, caller: Id, freshId: Id, now: int)
    returns (r: Result<Tweet>)
    requires UniqueIds(c.docs) && !HasId(c.docs, freshId)
    modifies c
    ensures r == NewTweet(content, caller, freshId, now)
    ensures r.Ok? ==> c.docs == old(c.docs) + [r.value]
    ensures r.Err? ==> c.docs == old(c.docs)
    ensures UniqueIds(c.docs)
  {
    if !Truthy(content) {
      return Err(BadRequest);
    }
    var tweet := Tweet(freshId, content.value, caller, now);
    c.docs := c.docs + [tweet];
    r := Ok(tweet);
  }

  method UpdateTweet(c: TweetCollection, tweetId: string, content: Option<string>) returns (r: Result<Tweet>)
    requires UniqueIds(c.docs)
    modifies c
    ensures (r, c.docs) == UpdateStep(old(c.docs), tweetId, content)
    ensures UniqueIds(c.docs)
  {
    if tweetId == "" || !Truthy(content) {
      return Err(BadRequest);
    }
    if !IsValidId(tweetId) {
      return Err(ServerError);
    }
    var found := IndexOf(c.docs, tweetId);
    if found.None? {
      return Err(NotFound);
    }
    var i := found.value;
    var updated := c.docs[i].(content := content.value);
    c.docs := c.docs[i := updated];
    r := Ok(updated);
  }

  method DeleteTweet(c: TweetCollection, tweetId: string) returns (r: Result<Tweet>)
    requires UniqueIds(c.docs)
    modifies c
    ensures (r, c.docs) == DeleteStep(old(c.docs), tweetId)
    ensures UniqueIds(c.docs)
  {
    DeleteRemovesExactlyOne(c.docs, tweetId);
    if tweetId == "" {
      return Err(BadRequest);
    }
    if !IsValidId(tweetId) {
      return Err(ServerError);
    }
    var found := IndexOf(c.docs, tweetId);
    if found.None? {
      return Err(NotFound);
    }
    var i := found.value;
    r := Ok(c.docs[i]);
    c.docs := c.docs[..i] + c.docs[i + 1..];
  }
}
