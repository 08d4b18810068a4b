/**
 * The friend-relationship engine of backend/src/controllers/userController.js
 * (lines 132-354) as pure transitions over the user store.
 *
 * Each user record holds three id lists (backend/src/models/User.js:22-33).
 * Every handler reads the two records it needs, rewrites their lists with
 * removeId and push-if-absent, and writes both back: here
 * `s[me := c'][other := t']`, one atomic update of the store.
 */
module FriendGraph {
  import opened Common
  import opened IdLists

  type UserId = string

  datatype Relations = Relations(friends: seq<UserId>, incomingRequests: seq<UserId>, outgoingRequests: seq<UserId>)

  /** The user collection, by id (only the relationship lists matter here). */
  type Store = map<UserId, Relations>

  /** The `status` field of a successful response. `Unrelated` is the source's 'none'. */
  datatype FriendStatus = Self | Friends | Incoming | Outgoing | Unrelated

  datatype FriendError =
    | Unauthenticated       // 401: no acting user, or the acting user's record is gone
    | UserNotFound          // 404: the other user does not exist
    | CannotFriendYourself  // 400
    | AlreadyFriends        // 400
    | RequestAlreadySent    // 400
    | NoRequestToAccept     // 400

  function HttpStatus(e: FriendError): (code: int)
    ensures code in {400, 401, 404}
  {
    match e
    case Unauthenticated => 401
    case UserNotFound => 404
    case _ => 400
  }

  /** What a handler answers, and the store after it. */
  datatype Step = Step(outcome: Result<FriendStatus, FriendError>, store: Store)

  // ---------------------------------------------------------------------------
  // Invariants

  /** No list of the record holds its owner. */
  ghost predicate NoSelfEntries(id: UserId, r: Relations)
  {
    id !in r.friends && id !in r.incomingRequests && id !in r.outgoingRequests
  }

  ghost predicate NoDuplicates(r: Relations)
  {
    NoDups(r.friends) && NoDups(r.incomingRequests) && NoDups(r.outgoingRequests)
  }

  /** Towards any other user, a record holds at most one of: friend, incoming request, outgoing request. */
  ghost predicate OneStatePerPair(r: Relations)
  {
    && (forall x :: x in r.friends ==> x !in r.incomingRequests && x !in r.outgoingRequests)
    && (forall x :: x in r.incomingRequests ==> x !in r.outgoingRequests)
  }

  ghost predicate WellFormed(id: UserId, r: Relations)
  {
    NoSelfEntries(id, r) && NoDuplicates(r) && OneStatePerPair(r)
  }

  /** `A.friends` contains B iff `B.friends` contains A. */
  ghost predicate FriendsSymmetric(s: Store)
  {
    forall a, b | a in s && b in s :: b in s[a].friends <==> a in s[b].friends
  }

  /** `A.outgoingRequests` contains B iff `B.incomingRequests` contains A. */
  ghost predicate RequestsDual(s: Store)
  {
    forall a, b | a in s && b in s :: b in s[a].outgoingRequests <==> a in s[b].incomingRequests
  }

  /** Every id a record lists belongs to a stored user. */
  ghost predicate ListsWithin(r: Relations, ids: set<UserId>)
  {
    forall x | x in r.friends || x in r.incomingRequests || x in r.outgoingRequests :: x in ids
  }

  ghost predicate Valid(s: Store)
  {
    && (forall a | a in s :: WellFormed(a, s[a]))
    && (forall a | a in s :: ListsWithin(s[a], s.Keys))
    && FriendsSymmetric(s)
    && RequestsDual(s)
  }

  /** The records of everyone except `a` and `b` are untouched, and nobody is added or removed. */
  ghost predicate OnlyPairChanged(s: Store, s': Store, a: UserId, b: UserId)
  {
    s'.Keys == s.Keys && forall u | u in s && u != a && u != b :: s'[u] == s[u]
  }

  // ---------------------------------------------------------------------------
  // getFriendStatus

  /** How `r` relates to `target`, checking friends, then incoming, then outgoing. */
  function Classify(r: Relations, target: UserId): (st: FriendStatus)
    ensures st != Self
    ensures st == Friends <==> target in r.friends
    ensures st == Incoming <==> target !in r.friends && target in r.incomingRequests
    ensures st == Outgoing <==> target !in r.friends && target !in r.incomingRequests && target in r.outgoingRequests
  {
    if HasId(r.friends, target) then Friends
    else if HasId(r.incomingRequests, target) then Incoming
    else if HasId(r.outgoingRequests, target) then Outgoing
    else Unrelated
  }

  /** getFriendStatus: 'self' before any record is read, then the lookups, then Classify. */
  function Status(s: Store, current: Option<UserId>, target: UserId): (r: Result<FriendStatus, FriendError>)
    ensures r == Success(Self) <==> current == Some(target)
    ensures r.Success? && r.value != Self ==>
      current.Some? && current.value in s && target in s && r.value == Classify(s[current.value], target)
  {
    if current.None? then Failure(Unauthenticated)
    else if target == current.value then Success(Self)
    else if target !in s then Failure(UserNotFound)
    else if current.value !in s then Failure(Unauthenticated)
    else Success(Classify(s[current.value], target))
  }

  // ---------------------------------------------------------------------------
  // Transitions

  /**
   * The accept step of acceptFriendRequest and of the implicit accept in
   * sendFriendRequest: drop `me`'s incoming marker for `other` and `other`'s
   * outgoing marker for `me`, then make each a friend of the other unless it
   * already is.
   */
  function Befriend(s: Store, me: UserId, other: UserId): (r: Store)
    requires me in s && other in s
    ensures OnlyPairChanged(s, r, me, other)
  {
    var c := s[me];
    var t := s[other];
    s[me := c.(incomingRequests := RemoveId(c.incomingRequests, other), friends := AddOnce(c.friends, other))]
     [other := t.(outgoingRequests := RemoveId(t.outgoingRequests, me), friends := AddOnce(t.friends, me))]
  }

  /** The plain request: `me` appends `other` to its outgoing list, `other` appends `me` to its incoming list. */
  function Request(s: Store, me: UserId, other: UserId): (r: Store)
    requires me in s && other in s
    ensures OnlyPairChanged(s, r, me, other)
  {
    var c := s[me];
    var t := s[other];
    s[me := c.(outgoingRequests := c.outgoingRequests + [other])]
     [other := t.(incomingRequests := t.incomingRequests + [me])]
  }

  /** sendFriendRequest. */
  function SendRequest(s: Store, current: Option<UserId>, target: UserId): (r: Step)
    ensures r.outcome.Failure? ==> r.store == s
    ensures r.outcome.Success? ==>
      && current.Some? && current.value != target && current.value in s && target in s
      && r.outcome.value in {Friends, Outgoing}
      && OnlyPairChanged(s, r.store, current.value, target)
  {
    if current.None? then Step(Failure(Unauthenticated), s)
    else
      var me := current.value;
      if target == me then Step(Failure(CannotFriendYourself), s)
      else if me !in s then Step(Failure(Unauthenticated), s)
      else if target !in s then Step(Failure(UserNotFound), s)
      else if HasId(s[me].friends, target) then Step(Failure(AlreadyFriends), s)
      else if HasId(s[me].incomingRequests, target) then Step(Success(Friends), Befriend(s, me, target))
      else if HasId(s[me].outgoingRequests, target) || HasId(s[target].incomingRequests, me) then
        Step(Failure(RequestAlreadySent), s)
      else Step(Success(Outgoing), Request(s, me, target))
  }

  /** acceptFriendRequest: only a pending incoming request can be accepted. */
  function Accept(s: Store, current: Option<UserId>, requester: UserId): (r: Step)
    ensures r.outcome.Failure? ==> r.store == s
    ensures r.outcome.Success? ==>
      && r.outcome.value == Friends
      && current.Some? && current.value in s && requester in s
      && requester in s[current.value].incomingRequests
      && r.store == Befriend(s, current.value, requester)
  {
    if current.None? then Step(Failure(Unauthenticated), s)
    else
      var me := current.value;
      if me !in s then Step(Failure(Unauthenticated), s)
      else if requester !in s then Step(Failure(UserNotFound), s)
      else if !HasId(s[me].incomingRequests, requester) then Step(Failure(NoRequestToAccept), s)
      else Step(Success(Friends), Befriend(s, me, requester))
  }

  /** The lookups every tolerant handler (reject, cancel, unfriend) starts with. */
  function Lookup(s: Store, current: Option<UserId>, other: UserId): (e: Option<FriendError>)
    ensures e.None? <==> current.Some? && current.value in s && other in s
  {
    if current.None? || current.value !in s then Some(Unauthenticated)
    else if other !in s then Some(UserNotFound)
    else None
  }

  /** rejectFriendRequest: drops `requester`'s request to `me`, and nothing else. */
  function Reject(s: Store, current: Option<UserId>, requester: UserId): (r: Step)
    ensures r.outcome.Failure? ==> r.store == s
    ensures r.outcome.Success? <==> current.Some? && current.value in s && requester in s
    ensures r.outcome.Success? ==> r.outcome.value == Unrelated && OnlyPairChanged(s, r.store, current.value, requester)
  {
    var e := Lookup(s, current, requester);
    if e.Some? then Step(Failure(e.value), s)
    else
      var me := current.value;
      var c := s[me];
      var t := s[requester];
      Step(Success(Unrelated),
           s[me := c.(incomingRequests := RemoveId(c.incomingRequests, requester))]
            [requester := t.(outgoingRequests := RemoveId(t.outgoingRequests, me))])
  }

  /** cancelFriendRequest: drops `me`'s request to `target`, and nothing else. */
  function Cancel(s: Store, current: Option<UserId>, target: UserId): (r: Step)
    ensures r.outcome.Failure? ==> r.store == s
    ensures r.outcome.Success? <==> current.Some? && current.value in s && target in s
    ensures r.outcome.Success? ==> r.outcome.value == Unrelated && OnlyPairChanged(s, r.store, current.value, target)
  {
    var e := Lookup(s, current, target);
    if e.Some? then Step(Failure(e.value), s)
    else
      var me := current.value;
      var c := s[me];
      var t := s[target];
      Step(Success(Unrelated),
           s[me := c.(outgoingRequests := RemoveId(c.outgoingRequests, target))]
            [target := t.(incomingRequests := RemoveId(t.incomingRequests, me))])
  }

  /** `r` with every trace of `other` removed from its three lists. */
  function Forget(r: Relations, other: UserId): (r': Relations)
    ensures other !in r'.friends && other !in r'.incomingRequests && other !in r'.outgoingRequests
  {
    Relations(RemoveId(r.friends, other), RemoveId(r.incomingRequests, other), RemoveId(r.outgoingRequests, other))
  }

  /** unfriend: the friendship and any pending request between the two, in both directions, are removed. */
  function Unfriend(s: Store, current: Option<UserId>, target: UserId): (r: Step)
    ensures r.outcome.Failure? ==> r.store == s
    ensures r.outcome.Success? <==> current.Some? && current.value in s && target in s
    ensures r.outcome.Success? ==> r.outcome.value == Unrelated && OnlyPairChanged(s, r.store, current.value, target)
  {
    var e := Lookup(s, current, target);
    if e.Some? then Step(Failure(e.value), s)
    else
      var me := current.value;
      Step(Success(Unrelated), s[me := Forget(s[me], target)][target := Forget(s[target], me)])
  }
}
