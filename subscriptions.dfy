/** The subscription controller: the subscribe toggle and the two list
    queries over the Subscription collection. */
module Subscriptions {
  import opened Common
  import opened Documents

  /** `{ channel: channelId, subscriber: subscriberId }` */
  function SubscriptionKey(channel: Id, subscriber: Id): Filter
  {
    map["channel" := channel, "subscriber" := subscriber]
  }

  function ChannelFilter(channel: Id): Filter
  {
    map["channel" := channel]
  }

  function SubscriberFilter(subscriber: Id): Filter
  {
    map["subscriber" := subscriber]
  }

  /** Every Subscription row holds exactly a channel and a subscriber. */
  predicate AllSubscriptionShaped(rows: seq<Doc>)
  {
    forall d :: d in rows ==> d.fields.Keys == {"channel", "subscriber"}
  }

  /** At most one row per (channel, subscriber) pair. */
  ghost predicate SubscriptionsUnique(rows: seq<Doc>)
  {
    forall c, s :: Count(rows, SubscriptionKey(c, s)) <= 1
  }

  /** One toggle: an empty channel id is a 400; there is no format check, so
      a malformed id reaches `findOne` and its failed ObjectId cast surfaces
      as a 500; both leave the store untouched. Otherwise the row toggle,
      answering with the deleted or the created row. */
  function SubscriptionStep(t: Table, channelId: string, subscriber: Id): (Result<Toggled>, Table)
  {
    if channelId == "" then (Err(BadRequest), t)
    else if !IsValidId(channelId) then (Err(ServerError), t)
    else
      var key := SubscriptionKey(channelId, subscriber);
      var (o, t') := Toggle(t, key, key);
      (Ok(o), t')
  }

  method ToggleSubscription(subscriptions: Collection, channelId: string, subscriber: Id) returns (r: Result<Toggled>)
    requires subscriptions.Valid()
    modifies subscriptions
    ensures subscriptions.Valid()
    ensures channelId == "" ==> r == Err(BadRequest)
    ensures r.Err? ==> subscriptions.rows == old(subscriptions.rows)
    ensures (r, subscriptions.State()) == SubscriptionStep(old(subscriptions.State()), channelId, subscriber)
  {
    if channelId == "" {
      return Err(BadRequest);
    }
    if !IsValidId(channelId) {
      return Err(ServerError);
    }
    var o := ToggleRow(subscriptions, SubscriptionKey(channelId, subscriber), SubscriptionKey(channelId, subscriber));
    r := Ok(o);
  }

  /** `getUserChannelSubscribers`: the rows whose `channel` is the given id. */
  function ChannelSubscribers(rows: seq<Doc>, channelId: string): (r: Result<seq<Doc>>)
    ensures channelId == "" ==> r == Err(BadRequest)
    ensures r.Ok? <==> IsValidId(channelId)
    ensures r.Ok? ==> |r.value| == Count(rows, ChannelFilter(channelId))
    ensures r.Ok? ==> forall d :: d in r.value <==>
                        d in rows && "channel" in d.fields && d.fields["channel"] == channelId
  {
    if channelId == "" then Err(BadRequest)
    else if !IsValidId(channelId) then Err(ServerError)
    else
      var found := FindAll(rows, ChannelFilter(channelId));
      assert forall d :: Matches(d, ChannelFilter(channelId)) <==>
                          "channel" in d.fields && d.fields["channel"] == channelId;
      Ok(found)
  }

  /** `getSubscribedChannels`: the rows whose `subscriber` is the given id. */
  function SubscribedChannels(rows: seq<Doc>, subscriberId: string): (r: Result<seq<Doc>>)
    ensures subscriberId == "" ==> r == Err(BadRequest)
    ensures r.Ok? <==> IsValidId(subscriberId)
    ensures r.Ok? ==> |r.value| == Count(rows, SubscriberFilter(subscriberId))
    ensures r.Ok? ==> forall d :: d in r.value <==>
                        d in rows && "subscriber" in d.fields && d.fields["subscriber"] == subscriberId
  {
    if subscriberId == "" then Err(BadRequest)
    else if !IsValidId(subscriberId) then Err(ServerError)
    else
      var found := FindAll(rows, SubscriberFilter(subscriberId));
      assert forall d :: Matches(d, SubscriberFilter(subscriberId)) <==>
                          "subscriber" in d.fields && d.fields["subscriber"] == subscriberId;
      Ok(found)
  }

  /** With no (channel, subscriber) row, the toggle creates exactly one and
      returns it. */
  lemma SubscribeCreates(t: Table, channelId: Id, subscriber: Id)
    requires IsValidId(channelId) && Count(t.rows, SubscriptionKey(channelId, subscriber)) == 0
    ensures var (r, t') := SubscriptionStep(t, channelId, subscriber);
            var d := Doc(t.nextId, SubscriptionKey(channelId, subscriber));
            && r == Ok(Created(d))
            && t'.rows == t.rows + [d]
            && Count(t'.rows, SubscriptionKey(channelId, subscriber)) == 1
  {
    var key := SubscriptionKey(channelId, subscriber);
    ToggleCount(t, key, key, key);
  }

  /** With the row present, the toggle deletes exactly that row, returns it
      and keeps every other row. */
  lemma UnsubscribeDeletes(t: Table, channelId: Id, subscriber: Id)
    requires WellFormed(t) && IsValidId(channelId) && Count(t.rows, SubscriptionKey(channelId, subscriber)) > 0
    ensures var (r, t') := SubscriptionStep(t, channelId, subscriber);
            && r.Ok? && r.value.Deleted?
            && Matches(r.value.doc, SubscriptionKey(channelId, subscriber))
            && r.value.doc in t.rows && r.value.doc !in t'.rows
            && |t'.rows| + 1 == |t.rows|
            && forall d :: d != r.value.doc ==> (d in t'.rows <==> d in t.rows)
  {
    var key := SubscriptionKey(channelId, subscriber);
    ToggleKeepsOtherRows(t, key, key);
  }

  /** Subscribing twice is the identity on the Subscription store, and the
      two calls answer with opposite outcomes. */
  lemma SubscriptionTwice(t: Table, channelId: Id, subscriber: Id)
    requires WellFormed(t) && AllSubscriptionShaped(t.rows) && SubscriptionsUnique(t.rows)
    ensures var (r1, t1) := SubscriptionStep(t, channelId, subscriber);
            var (r2, t2) := SubscriptionStep(t1, channelId, subscriber);
            && (IsValidId(channelId) ==> r1.Ok? && r2.Ok? && r1.value.Created? == r2.value.Deleted?)
            && (forall q :: Count(t2.rows, q) == Count(t.rows, q))
            && (r1.Ok? && r1.value.Created? ==> t2.rows == t.rows)
  {
    if IsValidId(channelId) {
      var key := SubscriptionKey(channelId, subscriber);
      forall d | d in t.rows && Matches(d, key) ensures d.fields == key {
        SameKeysMatchIsExact(d, key);
      }
      assert Count(t.rows, key) <= 1;
      ToggleWellFormed(t, key, key);
      ToggleTwice(t, key, key);
    }
  }

  /** Sequential toggles keep at most one row per (channel, subscriber). */
  lemma SubscriptionsStayUnique(t: Table, channelId: string, subscriber: Id)
    requires SubscriptionsUnique(t.rows)
    ensures SubscriptionsUnique(SubscriptionStep(t, channelId, subscriber).1.rows)
  {
    if IsValidId(channelId) {
      var key := SubscriptionKey(channelId, subscriber);
      var (o, t') := Toggle(t, key, key);
      forall c, s ensures Count(t'.rows, SubscriptionKey(c, s)) <= 1 {
        ToggleCount(t, key, key, SubscriptionKey(c, s));
        if o.Created? {
          assert Count(t.rows, SubscriptionKey(c, s)) <= 1;
          if Matches(o.doc, SubscriptionKey(c, s)) {
            assert "channel" in SubscriptionKey(c, s) && "subscriber" in SubscriptionKey(c, s);
            assert c == channelId && s == subscriber;
            assert Count(t.rows, key) == 0;
          }
        }
      }
    }
  }

  /** A successful toggle moves the channel's subscriber count by exactly
      one: up when it subscribed, down when it unsubscribed. */
  lemma SubscriberCountMovesByOne(t: Table, channelId: Id, subscriber: Id)
    requires IsValidId(channelId)
    ensures var (r, t') := SubscriptionStep(t, channelId, subscriber);
            && (r.value.Created? ==> Count(t'.rows, ChannelFilter(channelId)) == Count(t.rows, ChannelFilter(channelId)) + 1)
            && (r.value.Deleted? ==> Count(t'.rows, ChannelFilter(channelId)) + 1 == Count(t.rows, ChannelFilter(channelId)))
  {
    var key := SubscriptionKey(channelId, subscriber);
    ToggleSubFilterCount(t, key, key, ChannelFilter(channelId));
  }

  /** Toggles keep every row of subscription shape. */
  lemma SubscriptionStepShaped(t: Table, channelId: string, subscriber: Id)
    requires AllSubscriptionShaped(t.rows)
    ensures AllSubscriptionShaped(SubscriptionStep(t, channelId, subscriber).1.rows)
  {
    if IsValidId(channelId) {
      var key := SubscriptionKey(channelId, subscriber);
      match FindFirst(t.rows, key)
      case Some(i) => RemoveAtSubset(t.rows, i);
      case None =>
    }
  }
}
