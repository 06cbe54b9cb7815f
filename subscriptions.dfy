/**
 * src/controllers/subscription.controllers.js: toggling a subscription,
 * a channel's subscribers, and the channels a user subscribes to.
 */
module Subscriptions {
  import opened Common
  import opened Entities
  import opened Docs
  import opened Store

  // ---------------------------------------------------------------------
  // The self-subscription guard

  /**
   * The guard as written compares the route parameter's text with the
   * requesting user's id text, so an upper-case spelling of one's own id
   * slips past it.
   */
  function RejectsSelfAsWritten(channelId: string, me: Id): bool {
    channelId == me
  }

  /** The guard as intended: the parameter denotes the requesting user. */
  function RejectsSelf(channelId: string, me: Id): bool {
    CastId(channelId) == me
  }

  /** An id spelled with upper-case hexadecimal digits passes the written guard yet denotes the same user. */
  lemma SelfGuardBypass()
    ensures var me := "5f0a0b0c0d0e0f1011121314";
      var spelled := "5F0A0B0C0D0E0F1011121314";
      && IsValidObjectId(spelled)
      && !RejectsSelfAsWritten(spelled, me)
      && CastId(spelled) == me
      && RejectsSelf(spelled, me)
  {
    var me := "5f0a0b0c0d0e0f1011121314";
    var spelled := "5F0A0B0C0D0E0F1011121314";
    assert spelled[1] != me[1];
    assert CastId(spelled) == me;
  }

  // ---------------------------------------------------------------------
  // Specification of a toggle

  /** The `findOne` filter `{channel, subscriber}`. */
  function SubscriptionMatcher(channel: Id, subscriber: Id): Subscription -> bool {
    (x: Subscription) => x.channel == channel && x.subscriber == subscriber
  }

  function OfChannel(channel: Id): Subscription -> bool {
    (x: Subscription) => x.channel == channel
  }

  function BySubscriber(subscriber: Id): Subscription -> bool {
    (x: Subscription) => x.subscriber == subscriber
  }

  ghost predicate Subscribed(subs: seq<Subscription>, channel: Id, subscriber: Id) {
    exists i :: 0 <= i < |subs| && subs[i].channel == channel && subs[i].subscriber == subscriber
  }

  /** The subscriptions after a toggle: the first match deleted, or a new one appended. */
  function ToggleSubscriptions(subs: seq<Subscription>, channel: Id, me: Id, newId: Id): seq<Subscription> {
    match Find(subs, SubscriptionMatcher(channel, me))
    case Some(i) => RemoveAt(subs, i)
    case None => subs + [Subscription(newId, me, channel)]
  }

  /** The response of a toggle: the deleted subscription, or the created one. */
  function ToggleAnswer(subs: seq<Subscription>, channel: Id, me: Id, newId: Id): Subscription {
    match Find(subs, SubscriptionMatcher(channel, me))
    case Some(i) => subs[i]
    case None => Subscription(newId, me, channel)
  }

  /** Removing the subscription at `i` withdraws exactly its (channel, subscriber) pair, the pairs being unique. */
  lemma SubscribedAfterRemove(subs: seq<Subscription>, i: nat, c: Id, u: Id)
    requires i < |subs| && UniqueBy(subs, SubscriptionEdge)
    ensures Subscribed(RemoveAt(subs, i), c, u) <==> Subscribed(subs, c, u) && (c, u) != SubscriptionEdge(subs[i])
  {
    var r := RemoveAt(subs, i);
    if Subscribed(r, c, u) {
      var k :| 0 <= k < |r| && r[k].channel == c && r[k].subscriber == u;
      var k' := if k < i then k else k + 1;
      assert r[k] == subs[k'];
      if k < i {
        assert SubscriptionEdge(subs[k]) != SubscriptionEdge(subs[i]);
      } else {
        assert SubscriptionEdge(subs[i]) != SubscriptionEdge(subs[k']);
      }
    }
    if Subscribed(subs, c, u) && (c, u) != SubscriptionEdge(subs[i]) {
      var k :| 0 <= k < |subs| && subs[k].channel == c && subs[k].subscriber == u;
      var k' := if k < i then k else k - 1;
      assert r[k'] == subs[k];
    }
  }

  /** Appending a subscription adds exactly its (channel, subscriber) pair. */
  lemma SubscribedAfterAppend(subs: seq<Subscription>, x: Subscription, c: Id, u: Id)
    ensures Subscribed(subs + [x], c, u) <==> Subscribed(subs, c, u) || (c, u) == SubscriptionEdge(x)
  {
    var r := subs + [x];
    assert r[|subs|] == x;
    if Subscribed(r, c, u) && (c, u) != SubscriptionEdge(x) {
      var k :| 0 <= k < |r| && r[k].channel == c && r[k].subscriber == u;
      assert k < |subs| && r[k] == subs[k];
    }
    if Subscribed(subs, c, u) {
      var k :| 0 <= k < |subs| && subs[k].channel == c && subs[k].subscriber == u;
      assert r[k] == subs[k];
    }
  }

  /** A toggle flips whether `me` subscribes to `channel` and no other pair. */
  lemma ToggleFlips(subs: seq<Subscription>, channel: Id, me: Id, newId: Id)
    requires UniqueBy(subs, SubscriptionEdge)
    ensures Subscribed(ToggleSubscriptions(subs, channel, me, newId), channel, me) <==> !Subscribed(subs, channel, me)
    ensures forall c, u :: (c, u) != (channel, me) ==>
      (Subscribed(ToggleSubscriptions(subs, channel, me, newId), c, u) <==> Subscribed(subs, c, u))
  {
    var r := ToggleSubscriptions(subs, channel, me, newId);
    match Find(subs, SubscriptionMatcher(channel, me))
    case Some(i) =>
      assert SubscriptionEdge(subs[i]) == (channel, me);
      assert Subscribed(subs, channel, me);
      forall c, u ensures Subscribed(r, c, u) <==> Subscribed(subs, c, u) && (c, u) != (channel, me) {
        SubscribedAfterRemove(subs, i, c, u);
      }
    case None =>
      assert !Subscribed(subs, channel, me);
      forall c, u ensures Subscribed(r, c, u) <==> Subscribed(subs, c, u) || (c, u) == (channel, me) {
        SubscribedAfterAppend(subs, Subscription(newId, me, channel), c, u);
      }
  }

  /** The channel's subscriber count moves by exactly one. */
  lemma ToggleCount(subs: seq<Subscription>, channel: Id, me: Id, newId: Id)
    ensures Count(ToggleSubscriptions(subs, channel, me, newId), OfChannel(channel))
      == if Find(subs, SubscriptionMatcher(channel, me)).Some?
         then Count(subs, OfChannel(channel)) - 1
         else Count(subs, OfChannel(channel)) + 1
    ensures Find(subs, SubscriptionMatcher(channel, me)).Some? ==> Count(subs, OfChannel(channel)) >= 1
  {
    match Find(subs, SubscriptionMatcher(channel, me))
    case Some(i) =>
      CountRemoveAt(subs, i, OfChannel(channel));
      CountBounds(subs, OfChannel(channel));
    case None =>
      CountAppend(subs, [Subscription(newId, me, channel)], OfChannel(channel));
      CountSingle(Subscription(newId, me, channel), OfChannel(channel));
  }

  /** Toggling twice from "not subscribed" gives back exactly the original subscriptions. */
  lemma ToggleTwiceRestores(subs: seq<Subscription>, channel: Id, me: Id, n1: Id, n2: Id)
    requires Find(subs, SubscriptionMatcher(channel, me)).None?
    ensures ToggleSubscriptions(ToggleSubscriptions(subs, channel, me, n1), channel, me, n2) == subs
  {
    var once := subs + [Subscription(n1, me, channel)];
    assert once[|subs|] == Subscription(n1, me, channel);
    assert forall j :: 0 <= j < |subs| ==> once[j] == subs[j];
    assert Find(once, SubscriptionMatcher(channel, me)) == Some(|subs|);
    assert RemoveAt(once, |subs|) == subs;
  }

  /** The store's invariants on subscriptions hold in every state a toggle past the guard leaves. */
  lemma ToggleKeepsValid(subs: seq<Subscription>, channel: Id, me: Id, newId: Id)
    requires UniqueBy(subs, SubscriptionKey) && UniqueBy(subs, SubscriptionEdge)
    requires forall i :: 0 <= i < |subs| ==> subs[i].channel != subs[i].subscriber
    requires KeyAbsent(subs, SubscriptionKey, newId)
    requires channel != me
    ensures var r := ToggleSubscriptions(subs, channel, me, newId);
      && UniqueBy(r, SubscriptionKey) && UniqueBy(r, SubscriptionEdge)
      && forall i :: 0 <= i < |r| ==> r[i].channel != r[i].subscriber
  {
    match Find(subs, SubscriptionMatcher(channel, me))
    case Some(i) =>
      UniqueByRemove(subs, SubscriptionKey, i);
      UniqueByRemove(subs, SubscriptionEdge, i);
    case None =>
      var x := Subscription(newId, me, channel);
      assert KeyAbsent(subs, SubscriptionEdge, SubscriptionEdge(x)) by {
        forall j | 0 <= j < |subs| ensures SubscriptionEdge(subs[j]) != SubscriptionEdge(x) {
          assert !SubscriptionMatcher(channel, me)(subs[j]);
        }
      }
      UniqueByAppend(subs, SubscriptionKey, x);
      UniqueByAppend(subs, SubscriptionEdge, x);
  }

  // ---------------------------------------------------------------------
  // toggleSubscription

  /**
   * `toggleSubscription`: 400 for a malformed channel id, 401 for one's own
   * channel; otherwise toggles. No check that the channel exists.
   */
  method ToggleSubscription(db: Db, me: Id, channelId: string, newId: Id) returns (r: Outcome<Subscription>)
    requires db.Valid() && KeyAbsent(db.subscriptions, SubscriptionKey, newId)
    modifies db
    ensures db.Valid()
    ensures !IsValidObjectId(channelId) ==> r == Err(BadRequest)
    ensures IsValidObjectId(channelId) && RejectsSelf(channelId, me) ==> r == Err(Unauthorized)
    ensures r.Err? ==> db.Snapshot() == old(db.Snapshot())
    ensures IsValidObjectId(channelId) && !RejectsSelf(channelId, me) ==>
      && r == Ok(ToggleAnswer(old(db.subscriptions), CastId(channelId), me, newId))
      && db.Snapshot() == old(db.Snapshot()).(subscriptions := ToggleSubscriptions(old(db.subscriptions), CastId(channelId), me, newId))
  {
    if !IsValidObjectId(channelId) {
      return Err(BadRequest);
    }
    if RejectsSelf(channelId, me) {
      return Err(Unauthorized);
    }
    var channel := CastId(channelId);
    ToggleKeepsValid(db.subscriptions, channel, me, newId);
    var found := Find(db.subscriptions, SubscriptionMatcher(channel, me));
    if found.Some? {
      r := Ok(db.subscriptions[found.value]);
      db.subscriptions := RemoveAt(db.subscriptions, found.value);
    } else {
      r := Ok(Subscription(newId, me, channel));
      db.subscriptions := db.subscriptions + [r.value];
    }
  }

  // ---------------------------------------------------------------------
  // getUserChannelSubscribers

  function SubscriberOf(x: Subscription): Id { x.subscriber }

  function ChannelOf(x: Subscription): Id { x.channel }

  /** The `$group`'s `subscribers` array: the channel's subscribers in natural order. */
  function SubscriberIds(subs: seq<Subscription>, channel: Id): seq<Id> {
    Map(Filter(subs, OfChannel(channel)), SubscriberOf)
  }

  function IdIn(ids: seq<Id>): User -> bool {
    (u: User) => u.id in ids
  }

  datatype ChannelSubscribers = ChannelSubscribers(totalSubscribers: nat, channelSubscribers: seq<UserCard>)

  /**
   * `getUserChannelSubscribers`: 400 for a malformed id; with no subscriber
   * the aggregate is empty and the payload is undefined (`None`); otherwise
   * the count and the cards of the users, in their natural order, whose id
   * is among the subscribers.
   */
  function GetUserChannelSubscribers(s: State, channelId: string): (r: Outcome<Option<ChannelSubscribers>>)
    ensures !IsValidObjectId(channelId) ==> r == Err(BadRequest)
    ensures IsValidObjectId(channelId) ==> r.Ok?
    ensures r.Ok? && r.value.Some? ==>
      && 0 < r.value.value.totalSubscribers <= |s.subscriptions|
      && |r.value.value.channelSubscribers| <= |s.users|
      && |r.value.value.channelSubscribers| == Count(s.users, IdIn(SubscriberIds(s.subscriptions, CastId(channelId))))
  {
    if !IsValidObjectId(channelId) then Err(BadRequest)
    else
      var channel := CastId(channelId);
      var ids := SubscriberIds(s.subscriptions, channel);
      FilterComplete(s.users, IdIn(ids));
      if |ids| == 0 then Ok(None)
      else Ok(Some(ChannelSubscribers(|ids|, Map(Filter(s.users, IdIn(ids)), Card))))
  }

  /**
   * The total is the number of subscriptions to the channel, the payload is
   * absent exactly when there are none, and a user's card is listed exactly
   * when that user subscribes to the channel.
   */
  lemma ChannelSubscribersSpec(s: State, channelId: string)
    requires IsValidObjectId(channelId)
    ensures var r := GetUserChannelSubscribers(s, channelId);
      && r.Ok?
      && (r.value.None? <==> Count(s.subscriptions, OfChannel(CastId(channelId))) == 0)
      && (r.value.Some? ==> r.value.value.totalSubscribers == Count(s.subscriptions, OfChannel(CastId(channelId))))
      && (r.value.Some? ==> forall u :: u in s.users && Subscribed(s.subscriptions, CastId(channelId), u.id) ==>
            Card(u) in r.value.value.channelSubscribers)
      && (r.value.Some? ==> forall c :: c in r.value.value.channelSubscribers ==>
            exists u :: u in s.users && Subscribed(s.subscriptions, CastId(channelId), u.id) && c == Card(u))
  {
    var channel := CastId(channelId);
    var f := Filter(s.subscriptions, OfChannel(channel));
    var ids := Map(f, SubscriberOf);
    FilterComplete(s.subscriptions, OfChannel(channel));
    var users := Filter(s.users, IdIn(ids));
    FilterComplete(s.users, IdIn(ids));
    forall u | u in s.users && Subscribed(s.subscriptions, channel, u.id)
      ensures u in users
    {
      var k :| 0 <= k < |s.subscriptions| && s.subscriptions[k].channel == channel && s.subscriptions[k].subscriber == u.id;
      assert OfChannel(channel)(s.subscriptions[k]);
      assert s.subscriptions[k] in f;
      var m :| 0 <= m < |f| && f[m] == s.subscriptions[k];
      assert ids[m] == u.id;
    }
    forall u | u in users
      ensures Subscribed(s.subscriptions, channel, u.id)
    {
      var m :| 0 <= m < |ids| && ids[m] == u.id;
      assert f[m] in s.subscriptions;
    }
    forall c | c in Map(users, Card)
      ensures exists u :: u in s.users && Subscribed(s.subscriptions, channel, u.id) && c == Card(u)
    {
      var m :| 0 <= m < |users| && Map(users, Card)[m] == c;
      assert users[m] in users;
    }
    forall u | u in s.users && Subscribed(s.subscriptions, channel, u.id)
      ensures Card(u) in Map(users, Card)
    {
      var m :| 0 <= m < |users| && users[m] == u;
    }
  }

  /**
   * The `$lookup` yields each matching user once: with unique usernames, no
   * two cards of the payload share a username.
   */
  lemma ChannelSubscriberCardsDistinct(s: State, channelId: string)
    requires UniqueBy(s.users, UsernameKey)
    ensures var r := GetUserChannelSubscribers(s, channelId);
      r.Ok? && r.value.Some? ==>
        forall i, j :: 0 <= i < j < |r.value.value.channelSubscribers| ==>
          r.value.value.channelSubscribers[i].username != r.value.value.channelSubscribers[j].username
  {
    if IsValidObjectId(channelId) {
      var users := Filter(s.users, IdIn(SubscriberIds(s.subscriptions, CastId(channelId))));
      FilterUnique(s.users, IdIn(SubscriberIds(s.subscriptions, CastId(channelId))), UsernameKey);
      assert forall i, j :: 0 <= i < j < |users| ==> UsernameKey(users[i]) != UsernameKey(users[j]);
    }
  }

  // ---------------------------------------------------------------------
  // getSubscribedChannels

  /** The `$lookup` and `$unwind` of one subscription: the card of its channel, when that user exists. */
  function ChannelCard(s: State, x: Subscription): seq<UserCard> {
    match FindUser(s.users, x.channel)
    case None => []
    case Some(i) => [Card(s.users[i])]
  }

  function ChannelCardOf(s: State): Subscription -> seq<UserCard> {
    x => ChannelCard(s, x)
  }

  function ChannelCards(s: State, subs: seq<Subscription>): (r: seq<UserCard>)
    ensures |r| <= |subs|
  {
    assert forall k :: 0 <= k < |subs| ==> |ChannelCardOf(s)(subs[k])| <= 1;
    FlatMapShort(subs, ChannelCardOf(s));
    FlatMap(subs, ChannelCardOf(s))
  }

  /** `getSubscribedChannels`: 400 for a malformed id; otherwise one card per subscription, in natural order. */
  function GetSubscribedChannels(s: State, subscriberId: string): (r: Outcome<seq<UserCard>>)
    ensures !IsValidObjectId(subscriberId) ==> r == Err(BadRequest)
    ensures IsValidObjectId(subscriberId) ==> r.Ok? && |r.value| <= |s.subscriptions|
  {
    if !IsValidObjectId(subscriberId) then Err(BadRequest)
    else Ok(ChannelCards(s, Filter(s.subscriptions, BySubscriber(CastId(subscriberId)))))
  }

  /** One subscription contributes the card of its channel exactly when that channel is an existing user. */
  lemma ChannelCardSpec(s: State, x: Subscription, c: UserCard)
    requires UniqueBy(s.users, UserKey)
    ensures c in ChannelCard(s, x) <==> exists u :: u in s.users && u.id == x.channel && c == Card(u)
  {
    match FindUser(s.users, x.channel)
    case None =>
    case Some(i) =>
      assert s.users[i] in s.users;
      forall u | u in s.users && u.id == x.channel
        ensures Card(u) == Card(s.users[i])
      {
        var j :| 0 <= j < |s.users| && s.users[j] == u;
        UniqueFind(s.users, UserKey, i, j);
      }
  }

  /** The joined cards are the union of what each subscription contributes. */
  lemma ChannelCardsHas(s: State, subs: seq<Subscription>, c: UserCard)
    ensures c in ChannelCards(s, subs) <==> exists k :: 0 <= k < |subs| && c in ChannelCard(s, subs[k])
  {
    FlatMapHas(subs, ChannelCardOf(s), c);
    assert forall k :: 0 <= k < |subs| ==> ChannelCardOf(s)(subs[k]) == ChannelCard(s, subs[k]);
  }

  /** The cards are exactly those of existing users the subscriptions point at, at most one per subscription. */
  lemma ChannelCardsSpec(s: State, subs: seq<Subscription>)
    requires UniqueBy(s.users, UserKey)
    ensures forall c :: c in ChannelCards(s, subs) <==>
      exists k, u :: 0 <= k < |subs| && u in s.users && u.id == subs[k].channel && c == Card(u)
    ensures |ChannelCards(s, subs)| <= |subs|
  {
    forall c
      ensures c in ChannelCards(s, subs) <==>
        exists k, u :: 0 <= k < |subs| && u in s.users && u.id == subs[k].channel && c == Card(u)
    {
      ChannelCardsHas(s, subs, c);
      if c in ChannelCards(s, subs) {
        var k :| 0 <= k < |subs| && c in ChannelCard(s, subs[k]);
        ChannelCardSpec(s, subs[k], c);
      }
      if exists k, u :: 0 <= k < |subs| && u in s.users && u.id == subs[k].channel && c == Card(u) {
        var k, u :| 0 <= k < |subs| && u in s.users && u.id == subs[k].channel && c == Card(u);
        ChannelCardSpec(s, subs[k], c);
      }
    }
  }

  /** `c` is the card of a channel user `me` subscribes to. */
  ghost predicate CardOfSubscribedChannel(s: State, me: Id, c: UserCard) {
    exists u :: u in s.users && Subscribed(s.subscriptions, u.id, me) && c == Card(u)
  }

  lemma SubscribedChannelCard(s: State, me: Id, c: UserCard)
    requires UniqueBy(s.users, UserKey)
    ensures c in ChannelCards(s, Filter(s.subscriptions, BySubscriber(me))) <==> CardOfSubscribedChannel(s, me, c)
  {
    if c in ChannelCards(s, Filter(s.subscriptions, BySubscriber(me))) {
      ListedCardIsSubscribed(s, me, c);
    }
    if CardOfSubscribedChannel(s, me, c) {
      SubscribedCardIsListed(s, me, c);
    }
  }

  lemma ListedCardIsSubscribed(s: State, me: Id, c: UserCard)
    requires UniqueBy(s.users, UserKey)
    requires c in ChannelCards(s, Filter(s.subscriptions, BySubscriber(me)))
    ensures CardOfSubscribedChannel(s, me, c)
  {
    var f := Filter(s.subscriptions, BySubscriber(me));
    ChannelCardsHas(s, f, c);
    var k :| 0 <= k < |f| && c in ChannelCard(s, f[k]);
    ChannelCardSpec(s, f[k], c);
    var u :| u in s.users && u.id == f[k].channel && c == Card(u);
    assert f[k] in f;
    var j :| 0 <= j < |s.subscriptions| && s.subscriptions[j] == f[k];
    assert Subscribed(s.subscriptions, u.id, me);
  }

  lemma SubscribedCardIsListed(s: State, me: Id, c: UserCard)
    requires UniqueBy(s.users, UserKey)
    requires CardOfSubscribedChannel(s, me, c)
    ensures c in ChannelCards(s, Filter(s.subscriptions, BySubscriber(me)))
  {
    var f := Filter(s.subscriptions, BySubscriber(me));
    var u :| u in s.users && Subscribed(s.subscriptions, u.id, me) && c == Card(u);
    var j :| 0 <= j < |s.subscriptions| && s.subscriptions[j].channel == u.id && s.subscriptions[j].subscriber == me;
    var x := s.subscriptions[j];
    assert x in s.subscriptions && BySubscriber(me)(x);
    FilterComplete(s.subscriptions, BySubscriber(me));
    assert x in f;
    var k :| 0 <= k < |f| && f[k] == x;
    ChannelCardSpec(s, x, c);
    ChannelCardsHas(s, f, c);
  }

  /** A subscriber's listing holds the card of every existing channel user they subscribe to, and nothing else. */
  lemma SubscribedChannelsSpec(s: State, subscriberId: string)
    requires UniqueBy(s.users, UserKey)
    requires IsValidObjectId(subscriberId)
    ensures GetSubscribedChannels(s, subscriberId).Ok?
    ensures forall c :: c in GetSubscribedChannels(s, subscriberId).value <==>
      CardOfSubscribedChannel(s, CastId(subscriberId), c)
  {
    forall c ensures c in GetSubscribedChannels(s, subscriberId).value <==>
      CardOfSubscribedChannel(s, CastId(subscriberId), c)
    {
      SubscribedChannelCard(s, CastId(subscriberId), c);
    }
  }

  /** The `$lookup` finds the subscription's channel among the users. */
  function ChannelStored(s: State): Subscription -> bool {
    (x: Subscription) => FindUser(s.users, x.channel).Some?
  }

  /**
   * The `$unwind` emits one entry per subscription of the subscriber whose
   * channel is a stored user: the listing has that many entries, and entry
   * `i` is the card of the channel of the `i`-th such subscription.
   */
  lemma SubscribedChannelsCount(s: State, subscriberId: string)
    requires IsValidObjectId(subscriberId)
    ensures var r := GetSubscribedChannels(s, subscriberId);
      var mine := Filter(s.subscriptions, BySubscriber(CastId(subscriberId)));
      var joined := Filter(mine, ChannelStored(s));
      && r.Ok?
      && |r.value| == Count(mine, ChannelStored(s))
      && |joined| == |r.value|
      && forall i :: 0 <= i < |r.value| ==>
           && FindUser(s.users, joined[i].channel).Some?
           && r.value[i] == Card(s.users[FindUser(s.users, joined[i].channel).value])
  {
    var mine := Filter(s.subscriptions, BySubscriber(CastId(subscriberId)));
    var joined := Filter(mine, ChannelStored(s));
    forall k | 0 <= k < |mine|
      ensures |ChannelCardOf(s)(mine[k])| == (if ChannelStored(s)(mine[k]) then 1 else 0)
    {
    }
    FlatMapSingles(mine, ChannelCardOf(s), ChannelStored(s));
    FilterComplete(mine, ChannelStored(s));
    forall i | 0 <= i < |joined|
      ensures FindUser(s.users, joined[i].channel).Some?
      ensures ChannelCards(s, mine)[i] == Card(s.users[FindUser(s.users, joined[i].channel).value])
    {
      assert joined[i] in joined;
      assert ChannelCardOf(s)(joined[i]) == [ChannelCards(s, mine)[i]];
    }
  }
}
