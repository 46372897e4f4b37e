/** The part of the User collection the core writes: each user's watch
    history, updated with MongoDB's `$addToSet`. */
module Users {
  import opened Common

  /** A User document reduced to its watch history. */
  datatype User = User(watchHistory: seq<Id>)

  class UserCollection {
    var docs: map<Id, User>

    constructor (users: map<Id, User>)
      ensures docs == users
    {
      docs := users;
    }
  }

  /** `$addToSet` on an array: appends `x` unless it is already there. */
  function AddToSet(s: seq<Id>, x: Id): (r: seq<Id>)
    ensures x in r
    ensures forall y :: y in r <==> y in s || y == x
    ensures x in s ==> r == s
    ensures s <= r && |r| <= |s| + 1
    ensures NoDup(s) ==> NoDup(r)
  {
    if x in s then s else s + [x]
  }

  /** `User.findByIdAndUpdate(userId, { $addToSet: { watchHistory: videoId } })`:
      an unknown user id updates nothing. */
  function AddToWatchHistory(users: map<Id, User>, userId: Id, videoId: Id): (r: map<Id, User>)
    ensures r.Keys == users.Keys
    ensures forall u :: u in users && u != userId ==> r[u] == users[u]
    ensures userId in users ==> r[userId].watchHistory == AddToSet(users[userId].watchHistory, videoId)
  {
    if userId in users then users[userId := User(AddToSet(users[userId].watchHistory, videoId))]
    else users
  }
}
