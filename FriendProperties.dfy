/**
 * What the friend handlers promise beyond keeping the invariants: the status
 * a pair reports from both sides, the effect of each handler on the pair's
 * lists, idempotence of the tolerant handlers, and the request / accept /
 * unfriend lifecycle.
 */
module FriendProperties {
  import opened Common
  import opened IdLists
  import opened FriendGraph
  import opened FriendInvariants

  /** The status the other side of a pair sees. */
  function Mirror(st: FriendStatus): (m: FriendStatus)
  {
    match st
    case Incoming => Outgoing
    case Outgoing => Incoming
    case other => other
  }

  /** In a well-formed record the priority order of getFriendStatus never hides a second relation. */
  lemma ClassifyUnambiguous(id: UserId, r: Relations, target: UserId)
    requires WellFormed(id, r)
    ensures Classify(r, target) == Incoming <==> target in r.incomingRequests
    ensures Classify(r, target) == Outgoing <==> target in r.outgoingRequests
    ensures Classify(r, target) == Unrelated <==>
      target !in r.friends && target !in r.incomingRequests && target !in r.outgoingRequests
  {
  }

  /** Both users of a pair agree on their relationship: friends both ways, or incoming on one side exactly when outgoing on the other. */
  lemma StatusMirrored(s: Store, a: UserId, b: UserId)
    requires Valid(s) && a in s && b in s && a != b
    ensures Status(s, Some(a), b).Success? && Status(s, Some(b), a).Success?
    ensures Status(s, Some(b), a).value == Mirror(Status(s, Some(a), b).value)
  {
    assert WellFormed(a, s[a]) && WellFormed(b, s[b]);
    assert b in s[a].friends <==> a in s[b].friends;
    assert b in s[a].outgoingRequests <==> a in s[b].incomingRequests;
    assert a in s[b].outgoingRequests <==> b in s[a].incomingRequests;
  }

  /** sendFriendRequest refuses, without touching the store, a self request, a friend, and a pending request. */
  lemma SendRefusals(s: Store, me: UserId, target: UserId)
    ensures SendRequest(s, Some(me), me) == Step(Failure(CannotFriendYourself), s)
    ensures me in s && target in s && me != target && target in s[me].friends ==>
      SendRequest(s, Some(me), target) == Step(Failure(AlreadyFriends), s)
    ensures (&& me in s && target in s && me != target
             && target !in s[me].friends && target !in s[me].incomingRequests
             && (target in s[me].outgoingRequests || me in s[target].incomingRequests)) ==>
      SendRequest(s, Some(me), target) == Step(Failure(RequestAlreadySent), s)
  {
  }

  /** A plain request appends exactly one marker on each side and leaves the friends lists alone. */
  lemma SendPlainEffect(s: Store, me: UserId, target: UserId)
    requires SendRequest(s, Some(me), target).outcome == Success(Outgoing)
    ensures var s' := SendRequest(s, Some(me), target).store;
      && s'[me].outgoingRequests == s[me].outgoingRequests + [target]
      && s'[target].incomingRequests == s[target].incomingRequests + [me]
      && s'[me].friends == s[me].friends && s'[target].friends == s[target].friends
      && s'[me].incomingRequests == s[me].incomingRequests
      && s'[target].outgoingRequests == s[target].outgoingRequests
  {
  }

  /** After an accept both records list the other as a friend exactly once, and neither marker is left. */
  lemma BefriendEffect(s: Store, me: UserId, other: UserId)
    requires Valid(s) && me in s && other in s && me != other
    requires other in s[me].incomingRequests
    ensures var s' := Befriend(s, me, other);
      && multiset(s'[me].friends)[other] == 1 && multiset(s'[other].friends)[me] == 1
      && other !in s'[me].incomingRequests && me !in s'[other].outgoingRequests
      && Status(s', Some(me), other) == Success(Friends)
      && Status(s', Some(other), me) == Success(Friends)
  {
    var s' := Befriend(s, me, other);
    BefriendPreservesValid(s, me, other);
    assert WellFormed(me, s'[me]) && WellFormed(other, s'[other]);
    NoDupsCountsOne(s'[me].friends, other);
    NoDupsCountsOne(s'[other].friends, me);
  }

  lemma {:induction false} NoDupsCountsOne<T(!new)>(list: seq<T>, x: T)
    requires NoDups(list) && x in list
    ensures multiset(list)[x] == 1
  {
    if list[0] == x {
      assert list == [x] + list[1..];
      assert x !in list[1..] by {
        forall k | 0 <= k < |list| - 1 ensures list[1..][k] != x {
          assert list[1..][k] == list[k + 1];
        }
      }
    } else {
      assert list == [list[0]] + list[1..];
      assert NoDups(list[1..]) by {
        forall i, j | 0 <= i < j < |list[1..]| ensures list[1..][i] != list[1..][j] {
          assert list[1..][i] == list[i + 1] && list[1..][j] == list[j + 1];
        }
      }
      NoDupsCountsOne(list[1..], x);
    }
  }

  /** acceptFriendRequest fails, changing nothing, unless the requester's request is pending. */
  lemma AcceptNeedsPendingRequest(s: Store, me: UserId, requester: UserId)
    requires me in s && requester in s
    ensures Accept(s, Some(me), requester).outcome.Success? <==> requester in s[me].incomingRequests
    ensures requester !in s[me].incomingRequests ==>
      Accept(s, Some(me), requester) == Step(Failure(NoRequestToAccept), s)
  {
  }

  /**
   * Implicit accept: when `a` has asked `b`, `b` asking `a` back makes them
   * friends, and both pending markers are gone.
   */
  lemma ImplicitAccept(s: Store, a: UserId, b: UserId)
    requires Valid(s) && a in s && b in s && a != b
    requires Status(s, Some(a), b) == Success(Outgoing)
    ensures var r := SendRequest(s, Some(b), a);
      && r.outcome == Success(Friends)
      && r.store == Befriend(s, b, a)
      && Status(r.store, Some(a), b) == Success(Friends)
      && Status(r.store, Some(b), a) == Success(Friends)
      && a !in r.store[b].incomingRequests && b !in r.store[a].outgoingRequests
  {
    StatusMirrored(s, a, b);
    assert a in s[b].incomingRequests;
    BefriendEffect(s, b, a);
  }

  /** rejectFriendRequest clears only the requester-to-me request. */
  lemma RejectEffect(s: Store, me: UserId, requester: UserId)
    requires me in s && requester in s && me != requester
    ensures var s' := Reject(s, Some(me), requester).store;
      && requester !in s'[me].incomingRequests && me !in s'[requester].outgoingRequests
      && s'[me].friends == s[me].friends && s'[requester].friends == s[requester].friends
      && s'[me].outgoingRequests == s[me].outgoingRequests
      && s'[requester].incomingRequests == s[requester].incomingRequests
  {
  }

  /** cancelFriendRequest clears only the me-to-target request. */
  lemma CancelEffect(s: Store, me: UserId, target: UserId)
    requires me in s && target in s && me != target
    ensures var s' := Cancel(s, Some(me), target).store;
      && target !in s'[me].outgoingRequests && me !in s'[target].incomingRequests
      && s'[me].friends == s[me].friends && s'[target].friends == s[target].friends
      && s'[me].incomingRequests == s[me].incomingRequests
      && s'[target].outgoingRequests == s[target].outgoingRequests
  {
  }

  /** After unfriend both sides report 'none'. */
  lemma UnfriendClears(s: Store, a: UserId, b: UserId)
    requires a in s && b in s && a != b
    ensures var s' := Unfriend(s, Some(a), b).store;
      && Status(s', Some(a), b) == Success(Unrelated)
      && Status(s', Some(b), a) == Success(Unrelated)
  {
    var s' := Unfriend(s, Some(a), b).store;
    assert s'[a] == Forget(s[a], b) && s'[b] == Forget(s[b], a);
  }

  lemma RejectIdempotent(s: Store, current: Option<UserId>, requester: UserId)
    ensures var once := Reject(s, current, requester);
      Reject(once.store, current, requester) == once
  {
    var once := Reject(s, current, requester);
    if once.outcome.Success? {
      var me := current.value;
      RemoveIdIdempotent(s[me].incomingRequests, requester);
      RemoveIdIdempotent(s[requester].outgoingRequests, me);
      if me == requester {
        RemoveIdIdempotent(s[me].outgoingRequests, me);
      }
    }
  }

  lemma CancelIdempotent(s: Store, current: Option<UserId>, target: UserId)
    ensures var once := Cancel(s, current, target);
      Cancel(once.store, current, target) == once
  {
    var once := Cancel(s, current, target);
    if once.outcome.Success? {
      var me := current.value;
      RemoveIdIdempotent(s[me].outgoingRequests, target);
      RemoveIdIdempotent(s[target].incomingRequests, me);
      if me == target {
        RemoveIdIdempotent(s[me].incomingRequests, me);
      }
    }
  }

  lemma ForgetIdempotent(r: Relations, other: UserId)
    ensures Forget(Forget(r, other), other) == Forget(r, other)
  {
    RemoveIdIdempotent(r.friends, other);
    RemoveIdIdempotent(r.incomingRequests, other);
    RemoveIdIdempotent(r.outgoingRequests, other);
  }

  lemma UnfriendIdempotent(s: Store, current: Option<UserId>, target: UserId)
    ensures var once := Unfriend(s, current, target);
      Unfriend(once.store, current, target) == once
  {
    var once := Unfriend(s, current, target);
    if once.outcome.Success? {
      var me := current.value;
      ForgetIdempotent(s[me], target);
      ForgetIdempotent(s[target], me);
    }
  }

  /**
   * The lifecycle of a pair with no relation: `a` asks `b` (outgoing / incoming),
   * `b` accepts (friends both ways), `a` unfriends (none both ways).
   */
  lemma RequestAcceptUnfriend(s: Store, a: UserId, b: UserId)
    requires Valid(s) && a in s && b in s && a != b
    requires Status(s, Some(a), b) == Success(Unrelated)
    ensures var s1 := SendRequest(s, Some(a), b);
      && s1.outcome == Success(Outgoing)
      && Status(s1.store, Some(a), b) == Success(Outgoing)
      && Status(s1.store, Some(b), a) == Success(Incoming)
      && var s2 := Accept(s1.store, Some(b), a);
      && s2.outcome == Success(Friends)
      && Status(s2.store, Some(a), b) == Success(Friends)
      && Status(s2.store, Some(b), a) == Success(Friends)
      && var s3 := Unfriend(s2.store, Some(a), b);
      && s3.outcome == Success(Unrelated)
      && Status(s3.store, Some(a), b) == Success(Unrelated)
      && Status(s3.store, Some(b), a) == Success(Unrelated)
  {
    StatusMirrored(s, a, b);
    assert WellFormed(a, s[a]);
    var s1 := SendRequest(s, Some(a), b);
    assert s1.store == Request(s, a, b);
    RequestPreservesValid(s, a, b);
    assert b in s1.store[a].outgoingRequests && a in s1.store[b].incomingRequests;
    StatusMirrored(s1.store, a, b);
    var s2 := Accept(s1.store, Some(b), a);
    BefriendEffect(s1.store, b, a);
    UnfriendClears(s2.store, a, b);
  }
}
