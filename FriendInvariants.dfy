/**
 * The invariants of the friend-relationship engine are kept by every
 * handler: friend symmetry, request duality, one state per pair, no self
 * entries and no duplicates (see FriendGraph.Valid).
 */
module FriendInvariants {
  import opened Common
  import opened IdLists
  import opened FriendGraph

  // ---------------------------------------------------------------------------
  // Frame lemmas: a two-record update keeps the cross-record invariants when
  // the pair's lists change consistently and nothing else changes.

  lemma {:induction false} FriendsSymmetricAfter(s: Store, s': Store, me: UserId, other: UserId)
    requires FriendsSymmetric(s) && OnlyPairChanged(s, s', me, other)
    requires me in s && other in s && me != other
    requires forall x | x != other :: x in s'[me].friends <==> x in s[me].friends
    requires forall x | x != me :: x in s'[other].friends <==> x in s[other].friends
    requires other in s'[me].friends <==> me in s'[other].friends
    ensures FriendsSymmetric(s')
  {
    forall a, b | a in s' && b in s' ensures b in s'[a].friends <==> a in s'[b].friends {
      assert b in s[a].friends <==> a in s[b].friends;
    }
  }

  lemma {:induction false} RequestsDualAfter(s: Store, s': Store, me: UserId, other: UserId)
    requires RequestsDual(s) && OnlyPairChanged(s, s', me, other)
    requires me in s && other in s && me != other
    requires forall x | x != other :: x in s'[me].outgoingRequests <==> x in s[me].outgoingRequests
    requires forall x | x != other :: x in s'[me].incomingRequests <==> x in s[me].incomingRequests
    requires forall x | x != me :: x in s'[other].outgoingRequests <==> x in s[other].outgoingRequests
    requires forall x | x != me :: x in s'[other].incomingRequests <==> x in s[other].incomingRequests
    requires other in s'[me].outgoingRequests <==> me in s'[other].incomingRequests
    requires other in s'[me].incomingRequests <==> me in s'[other].outgoingRequests
    ensures RequestsDual(s')
  {
    forall a, b | a in s' && b in s' ensures b in s'[a].outgoingRequests <==> a in s'[b].incomingRequests {
      assert b in s[a].outgoingRequests <==> a in s[b].incomingRequests;
    }
  }

  lemma {:induction false} WellFormedAfter(s: Store, s': Store, me: UserId, other: UserId)
    requires (forall a | a in s :: WellFormed(a, s[a])) && OnlyPairChanged(s, s', me, other)
    requires me in s && other in s
    requires WellFormed(me, s'[me]) && WellFormed(other, s'[other])
    ensures forall a | a in s' :: WellFormed(a, s'[a])
  {
  }

  lemma {:induction false} ListsWithinAfter(s: Store, s': Store, me: UserId, other: UserId)
    requires (forall a | a in s :: ListsWithin(s[a], s.Keys)) && OnlyPairChanged(s, s', me, other)
    requires me in s && other in s
    requires ListsWithin(s'[me], s.Keys) && ListsWithin(s'[other], s.Keys)
    ensures forall a | a in s' :: ListsWithin(s'[a], s'.Keys)
  {
  }

  /** A record keeps NoSelfEntries, NoDuplicates and OneStatePerPair when every list only loses entries. */
  lemma {:induction false} WellFormedShrink(id: UserId, r: Relations, r': Relations)
    requires WellFormed(id, r) && NoDuplicates(r')
    requires forall x | x in r'.friends :: x in r.friends
    requires forall x | x in r'.incomingRequests :: x in r.incomingRequests
    requires forall x | x in r'.outgoingRequests :: x in r.outgoingRequests
    ensures WellFormed(id, r')
  {
  }

  // ---------------------------------------------------------------------------
  // The transitions

  /** The implicit or explicit accept keeps the invariants. */
  lemma {:induction false} BefriendPreservesValid(s: Store, me: UserId, other: UserId)
    requires Valid(s) && me in s && other in s && me != other
    requires other in s[me].incomingRequests
    ensures Valid(Befriend(s, me, other))
  {
    var s' := Befriend(s, me, other);
    var c, t := s[me], s[other];
    assert WellFormed(me, c) && WellFormed(other, t);
    assert other !in c.friends && other !in c.outgoingRequests;
    assert me !in t.incomingRequests by {
      assert other in s[me].outgoingRequests <==> me in s[other].incomingRequests;
    }
    assert me !in t.friends by {
      assert other in s[me].friends <==> me in s[other].friends;
    }
    RemoveIdNoDups(c.incomingRequests, other);
    RemoveIdNoDups(t.outgoingRequests, me);
    AddOnceNoDups(c.friends, other);
    AddOnceNoDups(t.friends, me);
    assert WellFormed(me, s'[me]);
    assert WellFormed(other, s'[other]);
    WellFormedAfter(s, s', me, other);
    ListsWithinAfter(s, s', me, other);
    FriendsSymmetricAfter(s, s', me, other);
    RequestsDualAfter(s, s', me, other);
  }

  /** A plain request keeps the invariants when the pair has no relation yet. */
  lemma {:induction false} RequestPreservesValid(s: Store, me: UserId, other: UserId)
    requires Valid(s) && me in s && other in s && me != other
    requires other !in s[me].friends && other !in s[me].incomingRequests && other !in s[me].outgoingRequests
    ensures Valid(Request(s, me, other))
  {
    var s' := Request(s, me, other);
    var c, t := s[me], s[other];
    assert WellFormed(me, c) && WellFormed(other, t);
    assert me !in t.incomingRequests by {
      assert other in s[me].outgoingRequests <==> me in s[other].incomingRequests;
    }
    assert me !in t.outgoingRequests by {
      assert me in s[other].outgoingRequests <==> other in s[me].incomingRequests;
    }
    assert me !in t.friends by {
      assert other in s[me].friends <==> me in s[other].friends;
    }
    AppendFreshNoDups(c.outgoingRequests, other);
    AppendFreshNoDups(t.incomingRequests, me);
    assert WellFormed(me, s'[me]);
    assert WellFormed(other, s'[other]);
    WellFormedAfter(s, s', me, other);
    ListsWithinAfter(s, s', me, other);
    FriendsSymmetricAfter(s, s', me, other);
    RequestsDualAfter(s, s', me, other);
  }

  lemma {:induction false} SendPreservesValid(s: Store, current: Option<UserId>, target: UserId)
    requires Valid(s)
    ensures Valid(SendRequest(s, current, target).store)
  {
    var r := SendRequest(s, current, target);
    if r.outcome.Success? {
      var me := current.value;
      if r.outcome.value == Friends {
        BefriendPreservesValid(s, me, target);
      } else {
        RequestPreservesValid(s, me, target);
      }
    }
  }

  lemma {:induction false} AcceptPreservesValid(s: Store, current: Option<UserId>, requester: UserId)
    requires Valid(s)
    ensures Valid(Accept(s, current, requester).store)
  {
    var r := Accept(s, current, requester);
    if r.outcome.Success? {
      var me := current.value;
      assert WellFormed(me, s[me]);
      BefriendPreservesValid(s, me, requester);
    }
  }

  /** The store without the pending request from `sender` to `receiver`, on both sides. */
  ghost function DropRequest(s: Store, sender: UserId, receiver: UserId): Store
    requires sender in s && receiver in s
  {
    var c, t := s[sender], s[receiver];
    s[sender := c.(outgoingRequests := RemoveId(c.outgoingRequests, receiver))]
     [receiver := t.(incomingRequests := RemoveId(t.incomingRequests, sender))]
  }

  /** Both changed records stay well formed and within the store. */
  lemma {:induction false} DropRequestRecords(c: Relations, t: Relations, sender: UserId, receiver: UserId, ids: set<UserId>)
    requires WellFormed(sender, c) && WellFormed(receiver, t)
    requires ListsWithin(c, ids) && ListsWithin(t, ids)
    ensures var c' := c.(outgoingRequests := RemoveId(c.outgoingRequests, receiver));
      WellFormed(sender, c') && ListsWithin(c', ids)
    ensures var t' := t.(incomingRequests := RemoveId(t.incomingRequests, sender));
      WellFormed(receiver, t') && ListsWithin(t', ids)
  {
    RemoveIdNoDups(c.outgoingRequests, receiver);
    RemoveIdNoDups(t.incomingRequests, sender);
    WellFormedShrink(sender, c, c.(outgoingRequests := RemoveId(c.outgoingRequests, receiver)));
    WellFormedShrink(receiver, t, t.(incomingRequests := RemoveId(t.incomingRequests, sender)));
  }

  /** Updates of two different keys commute. */
  lemma SwapUpdates(s: Store, a: UserId, b: UserId, x: Relations, y: Relations)
    requires a != b
    ensures s[a := x][b := y] == s[b := y][a := x]
  {
  }

  lemma {:induction false} DropRequestPreservesValid(s: Store, sender: UserId, receiver: UserId)
    requires Valid(s) && sender in s && receiver in s && sender != receiver
    ensures Valid(DropRequest(s, sender, receiver))
  {
    DropRequestKeepsRecords(s, sender, receiver);
    DropRequestKeepsSymmetric(s, sender, receiver);
    DropRequestKeepsDual(s, sender, receiver);
  }

  lemma {:induction false} DropRequestKeepsRecords(s: Store, sender: UserId, receiver: UserId)
    requires (forall u | u in s :: WellFormed(u, s[u])) && (forall u | u in s :: ListsWithin(s[u], s.Keys))
    requires sender in s && receiver in s && sender != receiver
    ensures var s' := DropRequest(s, sender, receiver);
      && (forall a | a in s' :: WellFormed(a, s'[a]))
      && (forall a | a in s' :: ListsWithin(s'[a], s'.Keys))
  {
    var s' := DropRequest(s, sender, receiver);
    var c, t := s[sender], s[receiver];
    assert WellFormed(sender, c) && WellFormed(receiver, t);
    assert ListsWithin(c, s.Keys) && ListsWithin(t, s.Keys);
    DropRequestRecords(c, t, sender, receiver, s.Keys);
    WellFormedAfter(s, s', sender, receiver);
    ListsWithinAfter(s, s', sender, receiver);
  }

  lemma {:induction false} DropRequestKeepsSymmetric(s: Store, sender: UserId, receiver: UserId)
    requires FriendsSymmetric(s) && sender in s && receiver in s && sender != receiver
    ensures FriendsSymmetric(DropRequest(s, sender, receiver))
  {
    FriendsSymmetricAfter(s, DropRequest(s, sender, receiver), sender, receiver);
  }

  lemma {:induction false} DropRequestKeepsDual(s: Store, sender: UserId, receiver: UserId)
    requires RequestsDual(s) && sender in s && receiver in s && sender != receiver
    ensures RequestsDual(DropRequest(s, sender, receiver))
  {
    RequestsDualAfter(s, DropRequest(s, sender, receiver), sender, receiver);
  }

  lemma {:induction false} RejectPreservesValid(s: Store, current: Option<UserId>, requester: UserId)
    requires Valid(s)
    ensures Valid(Reject(s, current, requester).store)
  {
    var r := Reject(s, current, requester);
    if r.outcome.Success? {
      var me := current.value;
      if me == requester {
        var c := s[me];
        assert WellFormed(me, c);
        RemoveIdAbsent(c.incomingRequests, me);
        RemoveIdAbsent(c.outgoingRequests, me);
        assert r.store == s;
      } else {
        var c, t := s[me], s[requester];
        SwapUpdates(s, me, requester, c.(incomingRequests := RemoveId(c.incomingRequests, requester)),
          t.(outgoingRequests := RemoveId(t.outgoingRequests, me)));
        DropRequestPreservesValid(s, requester, me);
      }
    }
  }

  lemma {:induction false} CancelPreservesValid(s: Store, current: Option<UserId>, target: UserId)
    requires Valid(s)
    ensures Valid(Cancel(s, current, target).store)
  {
    var r := Cancel(s, current, target);
    if r.outcome.Success? {
      var me := current.value;
      if me == target {
        var c := s[me];
        assert WellFormed(me, c);
        RemoveIdAbsent(c.outgoingRequests, me);
        RemoveIdAbsent(c.incomingRequests, me);
        assert r.store == s;
      } else {
        DropRequestPreservesValid(s, me, target);
      }
    }
  }

  lemma {:induction false} ForgetShrinks(id: UserId, r: Relations, other: UserId)
    requires WellFormed(id, r)
    ensures WellFormed(id, Forget(r, other))
  {
    RemoveIdNoDups(r.friends, other);
    RemoveIdNoDups(r.incomingRequests, other);
    RemoveIdNoDups(r.outgoingRequests, other);
    WellFormedShrink(id, r, Forget(r, other));
  }

  /** Forgetting a user adds no id to a record. */
  lemma {:induction false} ForgetWithin(r: Relations, other: UserId, ids: set<UserId>)
    requires ListsWithin(r, ids)
    ensures ListsWithin(Forget(r, other), ids)
  {
  }

  lemma {:induction false} ForgetAbsent(id: UserId, r: Relations)
    requires NoSelfEntries(id, r)
    ensures Forget(r, id) == r
  {
    RemoveIdAbsent(r.friends, id);
    RemoveIdAbsent(r.incomingRequests, id);
    RemoveIdAbsent(r.outgoingRequests, id);
  }

  lemma {:induction false} UnfriendPreservesValid(s: Store, current: Option<UserId>, target: UserId)
    requires Valid(s)
    ensures Valid(Unfriend(s, current, target).store)
  {
    var r := Unfriend(s, current, target);
    if r.outcome.Success? {
      var me := current.value;
      var c, t := s[me], s[target];
      assert WellFormed(me, c) && WellFormed(target, t);
      if me == target {
        ForgetAbsent(me, t);
        assert r.store == s;
      } else {
        UnfriendDistinctPreservesValid(s, me, target);
      }
    }
  }

  lemma {:induction false} UnfriendDistinctPreservesValid(s: Store, me: UserId, target: UserId)
    requires Valid(s) && me in s && target in s && me != target
    ensures Valid(s[me := Forget(s[me], target)][target := Forget(s[target], me)])
  {
    UnfriendDistinctRecords(s, me, target);
    UnfriendDistinctSymmetric(s, me, target);
    UnfriendDistinctDual(s, me, target);
  }

  lemma {:induction false} UnfriendDistinctRecords(s: Store, me: UserId, target: UserId)
    requires (forall u | u in s :: WellFormed(u, s[u])) && (forall u | u in s :: ListsWithin(s[u], s.Keys))
    requires me in s && target in s && me != target
    ensures var s' := s[me := Forget(s[me], target)][target := Forget(s[target], me)];
      && (forall a | a in s' :: WellFormed(a, s'[a]))
      && (forall a | a in s' :: ListsWithin(s'[a], s'.Keys))
  {
    var c, t := s[me], s[target];
    var s' := s[me := Forget(c, target)][target := Forget(t, me)];
    assert WellFormed(me, c) && WellFormed(target, t);
    assert ListsWithin(c, s.Keys) && ListsWithin(t, s.Keys);
    ForgetShrinks(me, c, target);
    ForgetShrinks(target, t, me);
    ForgetWithin(c, target, s.Keys);
    ForgetWithin(t, me, s.Keys);
    WellFormedAfter(s, s', me, target);
    ListsWithinAfter(s, s', me, target);
  }

  lemma {:induction false} UnfriendDistinctSymmetric(s: Store, me: UserId, target: UserId)
    requires FriendsSymmetric(s) && me in s && target in s && me != target
    ensures FriendsSymmetric(s[me := Forget(s[me], target)][target := Forget(s[target], me)])
  {
    var c, t := s[me], s[target];
    var s' := s[me := Forget(c, target)][target := Forget(t, me)];
    assert s'[me] == Forget(c, target) && s'[target] == Forget(t, me);
    FriendsSymmetricAfter(s, s', me, target);
  }

  lemma {:induction false} UnfriendDistinctDual(s: Store, me: UserId, target: UserId)
    requires RequestsDual(s) && me in s && target in s && me != target
    ensures RequestsDual(s[me := Forget(s[me], target)][target := Forget(s[target], me)])
  {
    var c, t := s[me], s[target];
    var s' := s[me := Forget(c, target)][target := Forget(t, me)];
    assert s'[me] == Forget(c, target) && s'[target] == Forget(t, me);
    RequestsDualAfter(s, s', me, target);
  }

  /** A newly registered user, with empty lists, keeps the invariants. */
  lemma {:induction false} AddUserPreservesValid(s: Store, id: UserId)
    requires Valid(s) && id !in s
    ensures Valid(s[id := Relations([], [], [])])
  {
    var s' := s[id := Relations([], [], [])];
    forall a | a in s ensures id !in s[a].friends && id !in s[a].incomingRequests && id !in s[a].outgoingRequests {
      assert ListsWithin(s[a], s.Keys);
    }
    assert forall a | a in s' :: ListsWithin(s'[a], s'.Keys);
  }
}
