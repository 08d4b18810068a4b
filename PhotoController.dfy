/**
 * backend/src/controllers/photoController.js: the ownership check, the
 * response shaping, and the comment and like handlers as methods on the
 * photo collection. Each handler looks the photo up, edits its comment or
 * like list in place, and saves it.
 */
module PhotoController {
  import opened Common
  import opened IdLists
  import opened JsValues

  type UserId = string
  type PhotoId = string
  type CommentId = string

  /** The authenticated user decoded from the token: its `_id` and `role` claims. */
  datatype Actor = Actor(id: Option<UserId>, role: string)

  /**
   * isOwnerOrAdmin: nobody without a user; every admin; otherwise the user
   * whose `_id` equals the owner id as a string (both absent also compare
   * equal, as `undefined === undefined`).
   */
  function IsOwnerOrAdmin(resourceUserId: Option<UserId>, user: Option<Actor>): (b: bool)
    ensures user.None? ==> !b
    ensures user.Some? && user.value.role == "admin" ==> b
    ensures user.Some? && user.value.role != "admin" ==> (b <==> resourceUserId == user.value.id)
  {
    user.Some? && (user.value.role == "admin" || resourceUserId == user.value.id)
  }

  /** `req.user?._id`, when truthy. */
  function ActorId(user: Option<Actor>): (id: Option<UserId>)
    ensures id.Some? <==> user.Some? && user.value.id.Some? && user.value.id.value != ""
    ensures id.Some? ==> id == user.value.id
  {
    if user.Some? && user.value.id.Some? && user.value.id.value != "" then user.value.id else None
  }

  // ---------------------------------------------------------------------------
  // Stored documents (backend/src/models/Photo.js), plus the `likes` list the
  // like handlers use.

  datatype Comment = Comment(id: CommentId, text: string, dateTime: int, author: UserId)

  datatype Photo = Photo(
    id: PhotoId, fileName: string, dateTime: int, owner: UserId,
    comments: seq<Comment>, likes: seq<UserId>)

  datatype PhotoError =
    | EmptyComment      // 400
    | Unauthenticated   // 401
    | UnknownPhoto      // 400: addComment's answer for a missing photo
    | PhotoNotFound     // 404
    | CommentNotFound   // 404
    | Forbidden         // 403

  function HttpStatus(e: PhotoError): (code: int)
    ensures code in {400, 401, 403, 404}
  {
    match e
    case EmptyComment => 400
    case Unauthenticated => 401
    case UnknownPhoto => 400
    case PhotoNotFound => 404
    case CommentNotFound => 404
    case Forbidden => 403
  }

  /** `photo.comments.id(commentId)`: the position of the first comment with that id. */
  function FindComment(cs: seq<Comment>, id: CommentId): (r: Option<nat>)
    ensures r.None? <==> forall k :: 0 <= k < |cs| ==> cs[k].id != id
    ensures r.Some? ==> r.value < |cs| && cs[r.value].id == id && forall k :: 0 <= k < r.value ==> cs[k].id != id
  {
    if cs == [] then None
    else if cs[0].id == id then Some(0)
    else
      var r := FindComment(cs[1..], id);
      if r.None? then None else Some(r.value + 1)
  }

  /** `comments.filter(c => c._id?.toString() !== commentId)`. */
  function RemoveComment(cs: seq<Comment>, id: CommentId): (r: seq<Comment>)
    ensures |r| <= |cs|
  {
    if cs == [] then []
    else if cs[0].id == id then RemoveComment(cs[1..], id)
    else [cs[0]] + RemoveComment(cs[1..], id)
  }

  /** The filter keeps exactly the comments whose id differs. */
  lemma {:induction false} RemoveCommentMembers(cs: seq<Comment>, id: CommentId)
    ensures forall c :: c in RemoveComment(cs, id) <==> c in cs && c.id != id
  {
    if cs != [] {
      RemoveCommentMembers(cs[1..], id);
      assert cs == [cs[0]] + cs[1..];
    }
  }

  /** The comment filter keeps the order of what it keeps: it distributes over concatenation. */
  lemma {:induction false} RemoveCommentConcat(a: seq<Comment>, b: seq<Comment>, id: CommentId)
    ensures RemoveComment(a + b, id) == RemoveComment(a, id) + RemoveComment(b, id)
  {
    if a == [] {
      assert a + b == b;
    } else {
      assert (a + b)[1..] == a[1..] + b;
      RemoveCommentConcat(a[1..], b, id);
    }
  }

  /** Deleting the one comment with a given id shortens the list by exactly one. */
  lemma {:induction false} RemoveUniqueComment(cs: seq<Comment>, i: nat)
    requires i < |cs|
    requires forall k :: 0 <= k < |cs| && k != i ==> cs[k].id != cs[i].id
    ensures RemoveComment(cs, cs[i].id) == cs[..i] + cs[i + 1..]
  {
    var id := cs[i].id;
    var tail := cs[1..];
    if i == 0 {
      assert forall k :: 0 <= k < |tail| ==> tail[k].id != id by {
        forall k | 0 <= k < |tail| ensures tail[k].id != id {
          assert tail[k] == cs[k + 1];
        }
      }
      RemoveCommentAbsent(tail, id);
      assert cs[i + 1..] == tail;
    } else {
      var rest := RemoveComment(tail, id);
      assert rest == tail[..i - 1] + tail[i..] by {
        assert tail[i - 1] == cs[i];
        assert forall k :: 0 <= k < |tail| && k != i - 1 ==> tail[k].id != tail[i - 1].id by {
          forall k | 0 <= k < |tail| && k != i - 1 ensures tail[k].id != tail[i - 1].id {
            assert tail[k] == cs[k + 1];
          }
        }
        RemoveUniqueComment(tail, i - 1);
      }
      assert RemoveComment(cs, id) == [cs[0]] + rest by {
        assert cs[0].id != id;
      }
      assert [cs[0]] + tail[..i - 1] == cs[..i];
      assert tail[i..] == cs[i + 1..];
    }
  }

  lemma {:induction false} RemoveCommentAbsent(cs: seq<Comment>, id: CommentId)
    requires forall k :: 0 <= k < |cs| ==> cs[k].id != id
    ensures RemoveComment(cs, id) == cs
  {
    if cs != [] {
      RemoveCommentAbsent(cs[1..], id);
      assert cs == [cs[0]] + cs[1..];
    }
  }

  /** Liking and then unliking leaves the like list as unliking alone would: the like is undone. */
  lemma LikeThenUnlike(likes: seq<UserId>, u: UserId)
    ensures RemoveId(AddOnce(likes, u), u) == RemoveId(likes, u)
  {
    if u !in likes {
      RemoveIdConcat(likes, [u], u);
      assert RemoveId([u], u) == [];
      assert RemoveId(likes, u) + [] == RemoveId(likes, u);
    }
  }

  /** Ids are unique among a photo's comments. */
  ghost predicate UniqueCommentIds(cs: seq<Comment>)
  {
    forall i, j :: 0 <= i < j < |cs| ==> cs[i].id != cs[j].id
  }

  /** A stored photo: no user likes it twice, and no two comments share an id. */
  ghost predicate WellFormedPhoto(p: Photo)
  {
    NoDups(p.likes) && UniqueCommentIds(p.comments)
  }

  /** Every photo is stored under its own id and is well formed. */
  ghost predicate ValidCollection(photos: map<PhotoId, Photo>)
  {
    forall id | id in photos :: photos[id].id == id && WellFormedPhoto(photos[id])
  }

  /** Replacing one photo by a well-formed photo with the same id keeps the collection valid. */
  lemma ReplacePhotoValid(photos: map<PhotoId, Photo>, p: Photo)
    requires ValidCollection(photos) && WellFormedPhoto(p)
    ensures ValidCollection(photos[p.id := p])
  {
  }

  /** Appending a comment with an id no other comment has keeps the ids unique. */
  lemma AppendFreshComment(cs: seq<Comment>, c: Comment)
    requires UniqueCommentIds(cs)
    requires forall k :: 0 <= k < |cs| ==> cs[k].id != c.id
    ensures UniqueCommentIds(cs + [c])
  {
  }

  /** Rewriting one comment's text keeps every id, so the ids stay unique. */
  lemma EditKeepsIds(cs: seq<Comment>, i: nat, text: string)
    requires i < |cs| && UniqueCommentIds(cs)
    ensures UniqueCommentIds(cs[i := cs[i].(text := text)])
  {
    var cs' := cs[i := cs[i].(text := text)];
    assert forall k :: 0 <= k < |cs| ==> cs'[k].id == cs[k].id;
  }

  /** Removing one comment from a list with unique ids keeps them unique. */
  lemma RemoveKeepsUnique(cs: seq<Comment>, i: nat)
    requires i < |cs| && UniqueCommentIds(cs)
    ensures UniqueCommentIds(cs[..i] + cs[i + 1..])
  {
    var r := cs[..i] + cs[i + 1..];
    forall a, b | 0 <= a < b < |r| ensures r[a].id != r[b].id {
      var a' := if a < i then a else a + 1;
      var b' := if b < i then b else b + 1;
      assert r[a] == cs[a'] && r[b] == cs[b'];
    }
  }

  // ---------------------------------------------------------------------------
  // shapePhoto

  /** A comment as read back with `.lean()`: `user_id` may be populated, and a `user` field may be present. */
  datatype RawComment = RawComment(id: CommentId, comment: string, dateTime: int, user: JsVal, userId: JsVal)

  /** A photo document as read back with `.lean()`; `comments` and `likes` may be missing. */
  datatype RawPhoto = RawPhoto(
    id: PhotoId, fileName: string, dateTime: int, userId: UserId,
    comments: Option<seq<RawComment>>, likes: Option<seq<UserId>>)

  datatype ShapedComment = ShapedComment(id: CommentId, comment: string, dateTime: int, user: JsVal)

  datatype ShapedPhoto = ShapedPhoto(
    id: PhotoId, fileName: string, dateTime: int, userId: UserId,
    comments: seq<ShapedComment>, likes: seq<UserId>)

  /** `{ _id, comment, date_time, user: c.user || c.user_id }`. */
  function ShapeComment(c: RawComment): (r: ShapedComment)
    ensures r.id == c.id && r.comment == c.comment && r.dateTime == c.dateTime
    ensures Truthy(c.user) ==> r.user == c.user
    ensures !Truthy(c.user) ==> r.user == c.userId
  {
    ShapedComment(c.id, c.comment, c.dateTime, Or(c.user, c.userId))
  }

  /** `comments.map(...)`: one shaped comment per comment, in order. */
  function ShapeComments(cs: seq<RawComment>): (r: seq<ShapedComment>)
    ensures |r| == |cs|
    ensures forall i :: 0 <= i < |cs| ==> r[i] == ShapeComment(cs[i])
  {
    if cs == [] then [] else [ShapeComment(cs[0])] + ShapeComments(cs[1..])
  }

  /** shapePhoto: every field kept, `likes` defaulted to [], comments mapped one to one. */
  function ShapePhoto(doc: Option<RawPhoto>): (r: Option<ShapedPhoto>)
    ensures r.None? <==> doc.None?
    ensures r.Some? ==>
      var p := doc.value;
      && r.value.id == p.id && r.value.fileName == p.fileName
      && r.value.dateTime == p.dateTime && r.value.userId == p.userId
      && r.value.likes == (if p.likes.Some? then p.likes.value else [])
      && var cs := if p.comments.Some? then p.comments.value else [];
      && |r.value.comments| == |cs|
      && forall i :: 0 <= i < |cs| ==> r.value.comments[i] == ShapeComment(cs[i])
  {
    if doc.None? then None
    else
      var p := doc.value;
      Some(ShapedPhoto(p.id, p.fileName, p.dateTime, p.userId,
                       ShapeComments(if p.comments.Some? then p.comments.value else []),
                       if p.likes.Some? then p.likes.value else []))
  }

  /** A stored comment read back with its author populated (`populate('comments.user_id')`). */
  function PopulatedComment(c: Comment): RawComment
  {
    RawComment(c.id, c.text, c.dateTime, Undefined, Obj(StrId(c.author)))
  }

  /** fetchPhotoWithComments: the stored photo read back, authors populated. */
  function ReadBack(p: Photo): RawPhoto
  {
    RawPhoto(p.id, p.fileName, p.dateTime, p.owner,
             Some(seq(|p.comments|, i requires 0 <= i < |p.comments| => PopulatedComment(p.comments[i]))),
             Some(p.likes))
  }

  /** What a handler answers for a stored photo: every comment in order, its `user` the populated author. */
  lemma {:induction false} ShapeReadBack(p: Photo)
    ensures var r := ShapePhoto(Some(ReadBack(p))).value;
      && r.id == p.id && r.likes == p.likes && |r.comments| == |p.comments|
      && forall i :: 0 <= i < |p.comments| ==>
           r.comments[i] == ShapedComment(p.comments[i].id, p.comments[i].text, p.comments[i].dateTime,
                                          Obj(StrId(p.comments[i].author)))
  {
    var r := ShapePhoto(Some(ReadBack(p))).value;
    forall i | 0 <= i < |p.comments|
      ensures r.comments[i] == ShapedComment(p.comments[i].id, p.comments[i].text, p.comments[i].dateTime,
                                             Obj(StrId(p.comments[i].author)))
    {
      assert ReadBack(p).comments.value[i] == PopulatedComment(p.comments[i]);
    }
  }

  /** After a comment is appended, the answer lists the earlier shaped comments followed by the new one. */
  lemma ShapeAfterAppend(p: Photo, c: Comment)
    ensures var before := ShapePhoto(Some(ReadBack(p))).value;
      var after := ShapePhoto(Some(ReadBack(p.(comments := p.comments + [c])))).value;
      after.comments == before.comments + [ShapedComment(c.id, c.text, c.dateTime, Obj(StrId(c.author)))]
  {
    var p' := p.(comments := p.comments + [c]);
    ShapeReadBack(p);
    ShapeReadBack(p');
    var before := ShapePhoto(Some(ReadBack(p))).value;
    var after := ShapePhoto(Some(ReadBack(p'))).value;
    assert p'.comments[|p.comments|] == c;
    assert forall i :: 0 <= i < |p.comments| ==> p'.comments[i] == p.comments[i];
  }

  // ---------------------------------------------------------------------------
  // The handlers

  class PhotoStore {
    /** The photo collection, by id. */
    var photos: map<PhotoId, Photo>

    ghost predicate Valid()
      reads this
    {
      ValidCollection(photos)
    }

    constructor (initial: map<PhotoId, Photo>)
      ensures photos == initial
    {
      photos := initial;
    }

    /** No stored comment carries `id` (a freshly generated id). */
    ghost predicate FreshCommentId(id: CommentId)
      reads this
    {
      forall p, k | p in photos && 0 <= k < |photos[p].comments| :: photos[p].comments[k].id != id
    }

    /**
     * addComment: a blank comment is refused before anything else; then the
     * photo must exist and the user be known; the trimmed comment is appended.
     */
    method AddComment(photoId: PhotoId, body: BodyField, user: Option<Actor>, now: int, newId: CommentId)
      returns (r: Result<Photo, PhotoError>)
      modifies this
      ensures !Filled(body) ==> r == Failure(EmptyComment)
      ensures Filled(body) && photoId !in old(photos) ==> r == Failure(UnknownPhoto)
      ensures Filled(body) && photoId in old(photos) && ActorId(user).None? ==> r == Failure(Unauthenticated)
      ensures r.Success? <==> Filled(body) && photoId in old(photos) && ActorId(user).Some?
      ensures r.Failure? ==> photos == old(photos)
      ensures r.Success? ==>
        && Filled(body) && photoId in old(photos) && ActorId(user).Some?
        && var p := old(photos)[photoId];
        && r.value == p.(comments := p.comments + [Comment(newId, Trim(body.s), now, ActorId(user).value)])
        && photos == old(photos)[photoId := r.value]
      ensures old(Valid()) && old(FreshCommentId(newId)) ==> Valid()
    {
      if !Filled(body) { return Failure(EmptyComment); }
      if photoId !in photos { return Failure(UnknownPhoto); }
      var photo := photos[photoId];
      var userId := ActorId(user);
      if userId.None? { return Failure(Unauthenticated); }
      var added := Comment(newId, Trim(body.s), now, userId.value);
      ghost var before := photo;
      photo := photo.(comments := photo.comments + [added]);
      if old(Valid()) && old(FreshCommentId(newId)) {
        assert WellFormedPhoto(before);
        AppendFreshComment(before.comments, added);
        ReplacePhotoValid(photos, photo);
      }
      photos := photos[photoId := photo];
      return Success(photo);
    }

    /** updateComment: a blank text, a missing photo or comment, or a stranger are refused. */
    method UpdateComment(photoId: PhotoId, commentId: CommentId, body: BodyField, user: Option<Actor>)
      returns (r: Result<Photo, PhotoError>)
      modifies this
      ensures !Filled(body) ==> r == Failure(EmptyComment)
      ensures Filled(body) && photoId !in old(photos) ==> r == Failure(PhotoNotFound)
      ensures Filled(body) && photoId in old(photos) && FindComment(old(photos)[photoId].comments, commentId).None? ==>
        r == Failure(CommentNotFound)
      ensures r.Success? <==>
        && Filled(body) && photoId in old(photos)
        && var p := old(photos)[photoId];
        && FindComment(p.comments, commentId).Some?
        && IsOwnerOrAdmin(Some(p.comments[FindComment(p.comments, commentId).value].author), user)
      ensures r.Failure? ==> photos == old(photos)
      ensures r.Success? ==>
        && Filled(body) && photoId in old(photos)
        && var p := old(photos)[photoId];
        && var i := FindComment(p.comments, commentId);
        && i.Some?
        && IsOwnerOrAdmin(Some(p.comments[i.value].author), user)
        && r.value == p.(comments := p.comments[i.value := p.comments[i.value].(text := Trim(body.s))])
        && photos == old(photos)[photoId := r.value]
      ensures r == Failure(Forbidden) <==>
        && Filled(body) && photoId in old(photos)
        && var p := old(photos)[photoId];
        && FindComment(p.comments, commentId).Some?
        && !IsOwnerOrAdmin(Some(p.comments[FindComment(p.comments, commentId).value].author), user)
      ensures old(Valid()) ==> Valid()
    {
      if !Filled(body) { return Failure(EmptyComment); }
      if photoId !in photos { return Failure(PhotoNotFound); }
      var photo := photos[photoId];
      var idx := FindComment(photo.comments, commentId);
      if idx.None? { return Failure(CommentNotFound); }
      var cmt := photo.comments[idx.value];
      if !IsOwnerOrAdmin(Some(cmt.author), user) { return Failure(Forbidden); }
      ghost var before := photo;
      cmt := cmt.(text := Trim(body.s));
      photo := photo.(comments := photo.comments[idx.value := cmt]);
      if old(Valid()) {
        assert WellFormedPhoto(before);
        EditKeepsIds(before.comments, idx.value, cmt.text);
        ReplacePhotoValid(photos, photo);
      }
      photos := photos[photoId := photo];
      return Success(photo);
    }

    /** deleteComment: only the author or an admin may remove it; the rest stay in order. */
    method DeleteComment(photoId: PhotoId, commentId: CommentId, user: Option<Actor>)
      returns (r: Result<Photo, PhotoError>)
      modifies this
      ensures photoId !in old(photos) ==> r == Failure(PhotoNotFound)
      ensures photoId in old(photos) && FindComment(old(photos)[photoId].comments, commentId).None? ==>
        r == Failure(CommentNotFound)
      ensures r.Success? <==>
        && photoId in old(photos)
        && var p := old(photos)[photoId];
        && FindComment(p.comments, commentId).Some?
        && IsOwnerOrAdmin(Some(p.comments[FindComment(p.comments, commentId).value].author), user)
      ensures r.Failure? ==> photos == old(photos)
      ensures r.Success? ==>
        && photoId in old(photos)
        && var p := old(photos)[photoId];
        && var i := FindComment(p.comments, commentId);
        && i.Some?
        && IsOwnerOrAdmin(Some(p.comments[i.value].author), user)
        && r.value == p.(comments := RemoveComment(p.comments, commentId))
        && photos == old(photos)[photoId := r.value]
      ensures r == Failure(Forbidden) <==>
        && photoId in old(photos)
        && var p := old(photos)[photoId];
        && FindComment(p.comments, commentId).Some?
        && !IsOwnerOrAdmin(Some(p.comments[FindComment(p.comments, commentId).value].author), user)
      ensures old(Valid()) ==> Valid()
    {
      if photoId !in photos { return Failure(PhotoNotFound); }
      var photo := photos[photoId];
      var idx := FindComment(photo.comments, commentId);
      if idx.None? { return Failure(CommentNotFound); }
      if !IsOwnerOrAdmin(Some(photo.comments[idx.value].author), user) { return Failure(Forbidden); }
      ghost var before := photo.comments;
      photo := photo.(comments := RemoveComment(photo.comments, commentId));
      if old(Valid()) {
        assert WellFormedPhoto(photos[photoId]);
        RemoveUniqueComment(before, idx.value);
        RemoveKeepsUnique(before, idx.value);
        ReplacePhotoValid(photos, photo);
      }
      photos := photos[photoId := photo];
      return Success(photo);
    }

    /** deletePhoto: only the owner or an admin may remove it. */
    method DeletePhoto(photoId: PhotoId, user: Option<Actor>) returns (r: Result<(), PhotoError>)
      modifies this
      ensures photoId !in old(photos) ==> r == Failure(PhotoNotFound)
      ensures photoId in old(photos) ==>
        (r.Success? <==> IsOwnerOrAdmin(Some(old(photos)[photoId].owner), user))
      ensures r.Failure? ==> photos == old(photos)
      ensures r.Success? ==> photos == old(photos) - {photoId}
      ensures r.Failure? && photoId in old(photos) ==> r == Failure(Forbidden)
      ensures old(Valid()) ==> Valid()
    {
      if photoId !in photos { return Failure(PhotoNotFound); }
      var photo := photos[photoId];
      if !IsOwnerOrAdmin(Some(photo.owner), user) { return Failure(Forbidden); }
      photos := photos - {photoId};
      return Success(());
    }

    /** likePhoto: the user id is appended only when absent. */
    method LikePhoto(photoId: PhotoId, user: Option<Actor>) returns (r: Result<Photo, PhotoError>)
      modifies this
      ensures ActorId(user).None? ==> r == Failure(Unauthenticated)
      ensures ActorId(user).Some? && photoId !in old(photos) ==> r == Failure(PhotoNotFound)
      ensures r.Success? <==> ActorId(user).Some? && photoId in old(photos)
      ensures r.Failure? ==> photos == old(photos)
      ensures r.Success? ==>
        && ActorId(user).Some? && photoId in old(photos)
        && var p := old(photos)[photoId];
        && r.value == p.(likes := AddOnce(p.likes, ActorId(user).value))
        && photos == old(photos)[photoId := r.value]
      ensures old(Valid()) ==> Valid()
    {
      var userId := ActorId(user);
      if userId.None? { return Failure(Unauthenticated); }
      if photoId !in photos { return Failure(PhotoNotFound); }
      var photo := photos[photoId];
      var already := HasId(photo.likes, userId.value);
      if !already {
        ghost var before := photo;
        photo := photo.(likes := photo.likes + [userId.value]);
        if old(Valid()) {
          assert WellFormedPhoto(before);
          AppendFreshNoDups(before.likes, userId.value);
          ReplacePhotoValid(photos, photo);
        }
        photos := photos[photoId := photo];
      }
      return Success(photo);
    }

    /** unlikePhoto: every occurrence of the user id is filtered out. */
    method UnlikePhoto(photoId: PhotoId, user: Option<Actor>) returns (r: Result<Photo, PhotoError>)
      modifies this
      ensures ActorId(user).None? ==> r == Failure(Unauthenticated)
      ensures ActorId(user).Some? && photoId !in old(photos) ==> r == Failure(PhotoNotFound)
      ensures r.Success? <==> ActorId(user).Some? && photoId in old(photos)
      ensures r.Failure? ==> photos == old(photos)
      ensures r.Success? ==>
        && ActorId(user).Some? && photoId in old(photos)
        && var p := old(photos)[photoId];
        && r.value == p.(likes := RemoveId(p.likes, ActorId(user).value))
        && photos == old(photos)[photoId := r.value]
      ensures old(Valid()) ==> Valid()
    {
      var userId := ActorId(user);
      if userId.None? { return Failure(Unauthenticated); }
      if photoId !in photos { return Failure(PhotoNotFound); }
      var photo := photos[photoId];
      ghost var before := photo;
      photo := photo.(likes := RemoveId(photo.likes, userId.value));
      if old(Valid()) {
        assert WellFormedPhoto(before);
        RemoveIdNoDups(before.likes, userId.value);
        ReplacePhotoValid(photos, photo);
      }
      photos := photos[photoId := photo];
      return Success(photo);
    }
  }
}
