/**
 * The photo list the client pages keep in state (Profile.jsx and
 * UserPhotos.jsx define the same helpers): photos as the API returns them,
 * normalizePhoto, upsertPhoto, the delete filter and the replace-by-id map.
 */
module PhotoFeed {
  import opened Common
  import opened JsValues

  /**
   * A comment as the client receives it: `user` is the populated author
   * object (or null when the author is gone), `user_id` is present only on
   * comments that were not shaped by the server.
   */
  datatype ClientComment = ClientComment(id: string, text: Option<string>, dateTime: int, user: JsVal, userId: JsVal)

  /** A photo as the client receives it; `user_id` is an id string or a populated object. */
  datatype ClientPhoto = ClientPhoto(id: string, fileName: string, dateTime: int, owner: JsVal,
                                     comments: Option<seq<ClientComment>>)

  /** The logged-in user kept by the client (`getUser()`): its `_id` and `role` fields. */
  datatype Viewer = Viewer(id: JsVal, role: JsVal)

  predicate IsAdmin(v: Viewer)
  {
    v.role == Str("admin")
  }

  /** `p.comments || []`. */
  function CommentsOf(p: ClientPhoto): seq<ClientComment>
  {
    if p.comments.Some? then p.comments.value else []
  }

  /** `prev || []`: the list in state before the first load is null. */
  function ListOf(prev: Option<seq<ClientPhoto>>): seq<ClientPhoto>
  {
    if prev.Some? then prev.value else []
  }

  /** `photo.user_id?._id || photo.user_id`: the owner id, populated or not. */
  function OwnerId(p: ClientPhoto): (r: JsVal)
    ensures p.owner.Obj? && p.owner.id.StrId? && p.owner.id.value != "" ==> r == Str(p.owner.id.value)
    ensures p.owner.Str? ==> r == p.owner
  {
    Or(IdOf(p.owner), p.owner)
  }

  /** `c.user?._id || c.user_id`: the author id of a comment. */
  function CommentAuthor(c: ClientComment): (r: JsVal)
    ensures c.user.Obj? && c.user.id.StrId? && c.user.id.value != "" ==> r == Str(c.user.id.value)
    ensures !(c.user.Obj? && c.user.id.StrId? && c.user.id.value != "") ==> r == c.userId
  {
    Or(IdOf(c.user), c.userId)
  }

  /** normalizePhoto: every field kept, `comments` defaulted to []. */
  function Normalize(p: ClientPhoto): (r: ClientPhoto)
    ensures r.id == p.id && r.fileName == p.fileName && r.dateTime == p.dateTime && r.owner == p.owner
    ensures r.comments == Some(CommentsOf(p))
  {
    p.(comments := Some(CommentsOf(p)))
  }

  /** Normalizing twice is normalizing once. */
  lemma NormalizeIdempotent(p: ClientPhoto)
    ensures Normalize(Normalize(p)) == Normalize(p)
  {
  }

  /** No two photos in the list share an id. */
  predicate UniqueIds(list: seq<ClientPhoto>)
  {
    forall i, j :: 0 <= i < j < |list| ==> list[i].id != list[j].id
  }

  /**
   * `list.findIndex(p => p._id === id)` over the client's photo records: the
   * position of the first photo with that id, if any. The server's lookup of a
   * comment by id (PhotoController.FindComment) has the same shape over server
   * comment records; the two stay separate because they search different
   * record types on the two sides of the API.
   */
  function FirstIndex(list: seq<ClientPhoto>, id: string): (r: Option<nat>)
    ensures r.None? <==> forall k :: 0 <= k < |list| ==> list[k].id != id
    ensures r.Some? ==> r.value < |list| && list[r.value].id == id && forall k :: 0 <= k < r.value ==> list[k].id != id
  {
    if list == [] then None
    else if list[0].id == id then Some(0)
    else
      var r := FirstIndex(list[1..], id);
      if r.None? then None else Some(r.value + 1)
  }

  /** `list.findIndex(p => p._id === id)`: the first matching index, or -1. */
  method FindIndex(list: seq<ClientPhoto>, id: string) returns (idx: int)
    ensures -1 <= idx < |list|
    ensures idx >= 0 ==> list[idx].id == id && forall k :: 0 <= k < idx ==> list[k].id != id
    ensures idx == -1 ==> forall k :: 0 <= k < |list| ==> list[k].id != id
  {
    idx := 0;
    while idx < |list|
      invariant 0 <= idx <= |list|
      invariant forall k :: 0 <= k < idx ==> list[k].id != id
    {
      if list[idx].id == id {
        return;
      }
      idx := idx + 1;
    }
    idx := -1;
  }

  /** What upsertPhoto leaves in state: the normalized photo replaces the first match, or is prepended. */
  function Upserted(prev: Option<seq<ClientPhoto>>, photo: ClientPhoto): seq<ClientPhoto>
  {
    var n := Normalize(photo);
    var list := ListOf(prev);
    var i := FirstIndex(list, n.id);
    if i.Some? then list[i.value := n] else [n] + list
  }

  /** upsertPhoto: find the index, then copy the list and overwrite that slot, or prepend. */
  method Upsert(prev: Option<seq<ClientPhoto>>, photo: ClientPhoto) returns (next: seq<ClientPhoto>)
    ensures next == Upserted(prev, photo)
  {
    var normalized := Normalize(photo);
    var list := ListOf(prev);
    var idx := FindIndex(list, normalized.id);
    if idx >= 0 {
      var copy := new ClientPhoto[|list|](i requires 0 <= i < |list| => list[i]);
      copy[idx] := normalized;
      next := copy[..];
      assert next == list[idx := normalized];
    } else {
      next := [normalized] + list;
    }
  }

  /** With a photo of that id in the list, upsert keeps the length and changes only the first match. */
  lemma UpsertReplaces(prev: Option<seq<ClientPhoto>>, photo: ClientPhoto, i: nat)
    requires i < |ListOf(prev)| && ListOf(prev)[i].id == photo.id
    requires forall k :: 0 <= k < i ==> ListOf(prev)[k].id != photo.id
    ensures var r := Upserted(prev, photo);
      && |r| == |ListOf(prev)| && r[i] == Normalize(photo)
      && forall k :: 0 <= k < |r| && k != i ==> r[k] == ListOf(prev)[k]
  {
    assert FirstIndex(ListOf(prev), photo.id) == Some(i);
  }

  /** Without a photo of that id, upsert prepends the normalized photo; a null list counts as empty. */
  lemma UpsertPrepends(prev: Option<seq<ClientPhoto>>, photo: ClientPhoto)
    requires forall k :: 0 <= k < |ListOf(prev)| ==> ListOf(prev)[k].id != photo.id
    ensures Upserted(prev, photo) == [Normalize(photo)] + ListOf(prev)
    ensures |Upserted(prev, photo)| == |ListOf(prev)| + 1
  {
  }

  /** Upsert keeps the ids in the list unique, and the photo is in the list afterwards. */
  lemma UpsertKeepsUniqueIds(prev: Option<seq<ClientPhoto>>, photo: ClientPhoto)
    requires UniqueIds(ListOf(prev))
    ensures UniqueIds(Upserted(prev, photo))
    ensures Normalize(photo) in Upserted(prev, photo)
  {
    var list := ListOf(prev);
    var r := Upserted(prev, photo);
    var i := FirstIndex(list, photo.id);
    if i.Some? {
      assert r[i.value] == Normalize(photo);
      forall a, b | 0 <= a < b < |r| ensures r[a].id != r[b].id {
        assert r[a].id == list[a].id && r[b].id == list[b].id;
      }
    } else {
      forall a, b | 0 <= a < b < |r| ensures r[a].id != r[b].id {
        if a > 0 {
          assert r[a] == list[a - 1] && r[b] == list[b - 1];
        }
      }
    }
  }

  /** Upserting the same photo a second time changes nothing. */
  lemma UpsertIdempotent(prev: Option<seq<ClientPhoto>>, photo: ClientPhoto)
    ensures Upserted(Some(Upserted(prev, photo)), photo) == Upserted(prev, photo)
  {
    var list := ListOf(prev);
    var n := Normalize(photo);
    var r := Upserted(prev, photo);
    NormalizeIdempotent(photo);
    match FirstIndex(list, n.id)
    case Some(i) =>
      assert r[i] == n;
      assert forall k :: 0 <= k < i ==> r[k].id != n.id;
      assert FirstIndex(r, n.id) == Some(i);
    case None =>
      assert FirstIndex(r, n.id) == Some(0);
  }

  /** `(prev || []).filter(p => p._id !== photoId)`. */
  function WithoutPhoto(list: seq<ClientPhoto>, id: string): (r: seq<ClientPhoto>)
    ensures forall p :: p in r <==> p in list && p.id != id
    ensures |r| <= |list|
  {
    if list == [] then []
    else if list[0].id == id then WithoutPhoto(list[1..], id)
    else [list[0]] + WithoutPhoto(list[1..], id)
  }

  /** The delete filter keeps the order of the rest: it distributes over concatenation. */
  lemma {:induction false} WithoutPhotoConcat(a: seq<ClientPhoto>, b: seq<ClientPhoto>, id: string)
    ensures WithoutPhoto(a + b, id) == WithoutPhoto(a, id) + WithoutPhoto(b, id)
  {
    if a == [] {
      assert a + b == b;
    } else {
      assert (a + b)[1..] == a[1..] + b;
      WithoutPhotoConcat(a[1..], b, id);
    }
  }

  /** A list with no photo of that id is left as it is; so deleting twice is deleting once. */
  lemma {:induction false} WithoutPhotoAbsent(list: seq<ClientPhoto>, id: string)
    requires forall k :: 0 <= k < |list| ==> list[k].id != id
    ensures WithoutPhoto(list, id) == list
  {
    if list != [] {
      WithoutPhotoAbsent(list[1..], id);
      assert list == [list[0]] + list[1..];
    }
  }

  lemma WithoutPhotoIdempotent(list: seq<ClientPhoto>, id: string)
    ensures WithoutPhoto(WithoutPhoto(list, id), id) == WithoutPhoto(list, id)
  {
    var r := WithoutPhoto(list, id);
    assert forall k :: 0 <= k < |r| ==> r[k] in r;
    WithoutPhotoAbsent(r, id);
  }

  lemma UniqueTail(list: seq<ClientPhoto>)
    requires UniqueIds(list) && list != []
    ensures UniqueIds(list[1..])
    ensures forall q | q in list[1..] :: q.id != list[0].id
  {
    var tail := list[1..];
    forall a, b | 0 <= a < b < |tail| ensures tail[a].id != tail[b].id {
      assert tail[a] == list[a + 1] && tail[b] == list[b + 1];
    }
    forall q | q in tail ensures q.id != list[0].id {
      var k :| 0 <= k < |tail| && tail[k] == q;
      assert list[k + 1] == q;
    }
  }

  lemma UniqueCons(x: ClientPhoto, rest: seq<ClientPhoto>)
    requires UniqueIds(rest)
    requires forall q | q in rest :: q.id != x.id
    ensures UniqueIds([x] + rest)
  {
    var r := [x] + rest;
    forall a, b | 0 <= a < b < |r| ensures r[a].id != r[b].id {
      assert r[b] == rest[b - 1];
      if a > 0 {
        assert r[a] == rest[a - 1];
      } else {
        assert rest[b - 1] in rest;
      }
    }
  }

  /** The delete filter keeps the ids of a list unique. */
  lemma {:induction false} WithoutPhotoKeepsUniqueIds(list: seq<ClientPhoto>, id: string)
    requires UniqueIds(list)
    ensures UniqueIds(WithoutPhoto(list, id))
  {
    if list != [] {
      UniqueTail(list);
      WithoutPhotoKeepsUniqueIds(list[1..], id);
      if list[0].id != id {
        UniqueCons(list[0], WithoutPhoto(list[1..], id));
      }
    }
  }

  /** `(prev || []).map(p => p._id === photoId ? updated : p)`. */
  function ReplaceById(list: seq<ClientPhoto>, id: string, updated: ClientPhoto): (r: seq<ClientPhoto>)
    ensures |r| == |list|
    ensures forall k :: 0 <= k < |list| && list[k].id != id ==> r[k] == list[k]
    ensures forall k :: 0 <= k < |list| && list[k].id == id ==> r[k] == updated
  {
    seq(|list|, k requires 0 <= k < |list| => if list[k].id == id then updated else list[k])
  }

  /** Replacing by id with a photo of that same id keeps the ids of a list unique. */
  lemma ReplaceKeepsUniqueIds(list: seq<ClientPhoto>, id: string, updated: ClientPhoto)
    requires UniqueIds(list) && updated.id == id
    ensures UniqueIds(ReplaceById(list, id, updated))
  {
    var r := ReplaceById(list, id, updated);
    assert forall k :: 0 <= k < |list| ==> r[k].id == list[k].id;
  }

  /**
   * On a list with unique ids that holds the photo, the replace-by-id map
   * after posting a comment and upsert agree, as long as the server copy
   * carries its comments.
   */
  lemma ReplaceAgreesWithUpsert(list: seq<ClientPhoto>, updated: ClientPhoto, i: nat)
    requires UniqueIds(list) && i < |list| && list[i].id == updated.id
    requires updated.comments.Some?
    ensures ReplaceById(list, updated.id, updated) == Upserted(Some(list), updated)
  {
    assert FirstIndex(list, updated.id) == Some(i);
    assert Normalize(updated) == updated;
  }

  /** When the photo is no longer listed, the replace-by-id map drops the server copy, where upsert would prepend it. */
  lemma ReplaceDropsUnlisted(list: seq<ClientPhoto>, updated: ClientPhoto)
    requires forall k :: 0 <= k < |list| ==> list[k].id != updated.id
    ensures ReplaceById(list, updated.id, updated) == list
    ensures Upserted(Some(list), updated) == [Normalize(updated)] + list
  {
  }

  /** `(drafts[id] || "").trim()`: the text a comment form would send. */
  function DraftText(drafts: map<string, string>, id: string): string
  {
    Trim(if id in drafts then drafts[id] else "")
  }

  /**
   * A draft the client sends passes the server's blank-comment check, and
   * the server's own trim leaves it as sent.
   */
  lemma SentDraftAccepted(drafts: map<string, string>, id: string)
    requires DraftText(drafts, id) != ""
    ensures Filled(Text(DraftText(drafts, id)))
    ensures Trim(DraftText(drafts, id)) == DraftText(drafts, id)
  {
    TrimIdempotent(if id in drafts then drafts[id] else "");
  }
}
