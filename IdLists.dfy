/**
 * The two list helpers every friend handler is built from (hasId and
 * removeId, backend/src/controllers/userController.js:12-13), the
 * "push only if absent" idiom the handlers use on friends lists and on
 * the like list, and the no-duplicates property of a list.
 */
module IdLists {

  /** No value occurs twice in the list. */
  predicate NoDups<T(==,!new)>(list: seq<T>)
  {
    forall i, j :: 0 <= i < j < |list| ==> list[i] != list[j]
  }

  /** `list.some(v => v === id)`. */
  function HasId<T(==,!new)>(list: seq<T>, id: T): (b: bool)
    ensures b <==> id in list
  {
    if list == [] then false else list[0] == id || HasId(list[1..], id)
  }

  /** `list.filter(v => v !== id)`. */
  function RemoveId<T(==,!new)>(list: seq<T>, id: T): (r: seq<T>)
    ensures forall x :: x in r <==> x in list && x != id
    ensures multiset(r) == multiset(list)[id := 0]
    ensures |r| <= |list|
  {
    if list == [] then []
    else
      assert list == [list[0]] + list[1..];
      assert multiset(list) == multiset{list[0]} + multiset(list[1..]);
      if list[0] == id then RemoveId(list[1..], id)
      else [list[0]] + RemoveId(list[1..], id)
  }

  /** `if (!hasId(list, id)) list.push(id)`. */
  function AddOnce<T(==,!new)>(list: seq<T>, id: T): (r: seq<T>)
    ensures forall x :: x in r <==> x in list || x == id
    ensures id in list ==> r == list
    ensures id !in list ==> r == list + [id]
  {
    if HasId(list, id) then list else list + [id]
  }

  /** removeId keeps the order of what it keeps: it distributes over concatenation. */
  lemma {:induction false} RemoveIdConcat<T(!new)>(a: seq<T>, b: seq<T>, id: T)
    ensures RemoveId(a + b, id) == RemoveId(a, id) + RemoveId(b, id)
  {
    if a == [] {
      assert a + b == b;
    } else {
      assert (a + b)[1..] == a[1..] + b;
      RemoveIdConcat(a[1..], b, id);
    }
  }

  /** Removing an id that is not there leaves the list as it was. */
  lemma {:induction false} RemoveIdAbsent<T(!new)>(list: seq<T>, id: T)
    requires id !in list
    ensures RemoveId(list, id) == list
  {
    if list != [] {
      RemoveIdAbsent(list[1..], id);
      assert list == [list[0]] + list[1..];
    }
  }

  /** removeId is idempotent. */
  lemma RemoveIdIdempotent<T(!new)>(list: seq<T>, id: T)
    ensures RemoveId(RemoveId(list, id), id) == RemoveId(list, id)
  {
    RemoveIdAbsent(RemoveId(list, id), id);
  }

  /** removeId never introduces a duplicate. */
  lemma {:induction false} RemoveIdNoDups<T(!new)>(list: seq<T>, id: T)
    requires NoDups(list)
    ensures NoDups(RemoveId(list, id))
  {
    if list != [] {
      RemoveIdNoDups(list[1..], id);
      if list[0] != id {
        var r := RemoveId(list[1..], id);
        assert list[0] !in list[1..] by {
          forall k | 0 <= k < |list[1..]| ensures list[1..][k] != list[0] {
            assert list[1..][k] == list[k + 1];
          }
        }
        assert list[0] !in r;
      }
    }
  }

  /** Adding only when absent never introduces a duplicate. */
  lemma AddOnceNoDups<T(!new)>(list: seq<T>, id: T)
    requires NoDups(list)
    ensures NoDups(AddOnce(list, id))
  {
    if id !in list {
      var r := list + [id];
      forall i, j | 0 <= i < j < |r| ensures r[i] != r[j] {
        if j == |list| { assert r[i] == list[i]; }
      }
    }
  }

  /** Adding only when absent is idempotent. */
  lemma AddOnceIdempotent<T(!new)>(list: seq<T>, id: T)
    ensures AddOnce(AddOnce(list, id), id) == AddOnce(list, id)
  {
  }

  /** Appending an absent id keeps a duplicate-free list duplicate-free. */
  lemma AppendFreshNoDups<T(!new)>(list: seq<T>, id: T)
    requires NoDups(list) && id !in list
    ensures NoDups(list + [id])
  {
    AddOnceNoDups(list, id);
  }
}
