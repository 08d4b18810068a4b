/**
 * frontend/src/pages/users/UserPhotos.jsx: another user's photo page, with
 * a comment form per photo. It keeps the photo list, the drafts and the
 * per-photo submitting and deleting flags in state.
 */
module UserPhotos {
  import opened Common
  import opened JsValues
  import opened PhotoFeed
  import Profile

  /** canDelete: nobody without a stored user; every admin; otherwise the owner by string equality. */
  function CanDelete(me: Option<Viewer>, photo: ClientPhoto): (b: bool)
    ensures me.None? ==> !b
    ensures me.Some? && IsAdmin(me.value) ==> b
    ensures me.Some? && !IsAdmin(me.value) ==> (b <==> me.value.id == Str(ToString(OwnerId(photo))))
  {
    me.Some? && (IsAdmin(me.value) || StrictEqStr(me.value.id, ToString(OwnerId(photo))))
  }

  /**
   * The two pages decide alike for a viewer with a truthy id. They differ
   * for an admin whose stored record has no id: this page offers delete,
   * the profile page does not.
   */
  lemma CanDeleteAcrossPages(v: Viewer, photo: ClientPhoto)
    ensures Truthy(v.id) ==> (CanDelete(Some(v), photo) <==> Profile.CanDelete(Some(v), photo))
    ensures IsAdmin(v) && !Truthy(v.id) ==> CanDelete(Some(v), photo) && !Profile.CanDelete(Some(v), photo)
  {
  }

  /** handleUploaded's guard: the photo belongs to the user whose page this is. */
  predicate ForThisPage(userId: string, photo: ClientPhoto)
  {
    ToString(OwnerId(photo)) == userId
  }

  class UserPhotosView {
    const userId: string
    const me: Option<Viewer>
    var photos: Option<seq<ClientPhoto>>
    var draft: map<string, string>
    var submitting: map<string, bool>
    var deleting: map<string, bool>

    /** No two listed photos share an id. */
    ghost predicate Valid()
      reads this
    {
      photos.Some? ==> UniqueIds(photos.value)
    }

    constructor (userId: string, me: Option<Viewer>)
      ensures this.userId == userId && this.me == me
      ensures photos == None && draft == map[] && submitting == map[] && deleting == map[]
      ensures Valid()
    {
      this.userId := userId;
      this.me := me;
      photos := None;
      draft, submitting, deleting := map[], map[], map[];
    }

    /** The initial load: a failed request leaves the list unset. */
    method Loaded(response: Option<seq<ClientPhoto>>)
      modifies this
      ensures photos == if response.Some? then response else old(photos)
      ensures draft == old(draft) && submitting == old(submitting) && deleting == old(deleting)
      ensures old(Valid()) && (response.Some? ==> UniqueIds(response.value)) ==> Valid()
    {
      if response.Some? {
        photos := response;
      }
    }

    /** handleUploaded: only photos of the viewed user are upserted. */
    method Uploaded(detail: Option<ClientPhoto>)
      modifies this
      ensures detail.Some? && ForThisPage(userId, detail.value) ==> photos == Some(Upserted(old(photos), detail.value))
      ensures !(detail.Some? && ForThisPage(userId, detail.value)) ==> photos == old(photos)
      ensures draft == old(draft) && submitting == old(submitting) && deleting == old(deleting)
      ensures old(Valid()) ==> Valid()
    {
      if detail.None? {
        return;
      }
      var photo := detail.value;
      var ownerId := OwnerId(photo);
      if ToString(ownerId) != userId {
        return;
      }
      if old(Valid()) {
        UpsertKeepsUniqueIds(photos, photo);
      }
      var next := Upsert(photos, photo);
      photos := Some(next);
    }

    /** onChangeDraft: the draft of that photo follows the input. */
    method ChangeDraft(photoId: string, text: string)
      modifies this
      ensures draft == old(draft)[photoId := text]
      ensures photos == old(photos) && submitting == old(submitting) && deleting == old(deleting)
    {
      draft := draft[photoId := text];
    }

    /**
     * submitComment: a blank draft sends nothing and changes nothing.
     * Otherwise the trimmed draft is posted. On success only the photo with
     * that id is replaced by the server's copy and the draft is reset to "".
     * The submitting flag ends cleared either way.
     */
    method SubmitComment(photoId: string, response: Option<ClientPhoto>) returns (sent: Option<string>)
      modifies this
      ensures DraftText(old(draft), photoId) == "" <==> sent.None?
      ensures sent.Some? ==> sent.value == DraftText(old(draft), photoId)
      ensures sent.None? ==> photos == old(photos) && draft == old(draft) && submitting == old(submitting)
      ensures sent.Some? ==> submitting == old(submitting)[photoId := false]
      ensures sent.Some? && response.Some? ==>
        && photos == Some(ReplaceById(ListOf(old(photos)), photoId, response.value))
        && draft == old(draft)[photoId := ""]
      ensures sent.Some? && response.None? ==> photos == old(photos) && draft == old(draft)
      ensures deleting == old(deleting)
      ensures old(Valid()) && (response.Some? ==> response.value.id == photoId) ==> Valid()
    {
      var text := DraftText(draft, photoId);
      if text == "" {
        return None;
      }
      sent := Some(text);
      submitting := submitting[photoId := true];
      if response.Some? {
        if old(Valid()) && response.value.id == photoId {
          ReplaceKeepsUniqueIds(ListOf(photos), photoId, response.value);
        }
        photos := Some(ReplaceById(ListOf(photos), photoId, response.value));
        draft := draft[photoId := ""];
      }
      submitting := submitting[photoId := false];
    }

    /** handleEditComment and handleDeleteComment: the server's copy of the photo is upserted. */
    method CommentChanged(updated: ClientPhoto)
      modifies this
      ensures photos == Some(Upserted(old(photos), updated))
      ensures draft == old(draft) && submitting == old(submitting) && deleting == old(deleting)
      ensures old(Valid()) ==> Valid()
    {
      if old(Valid()) {
        UpsertKeepsUniqueIds(photos, updated);
      }
      var next := Upsert(photos, updated);
      photos := Some(next);
    }

    /** handleDeletePhoto: a confirmed, successful delete filters the photo out. */
    method Delete(photoId: string, confirmed: bool, serverDeleted: bool)
      modifies this
      ensures !confirmed ==> photos == old(photos) && deleting == old(deleting)
      ensures confirmed ==> deleting == old(deleting)[photoId := false]
      ensures confirmed && serverDeleted ==> photos == Some(WithoutPhoto(ListOf(old(photos)), photoId))
      ensures confirmed && !serverDeleted ==> photos == old(photos)
      ensures draft == old(draft) && submitting == old(submitting)
      ensures old(Valid()) ==> Valid()
    {
      if !confirmed {
        return;
      }
      deleting := deleting[photoId := true];
      if serverDeleted {
        if old(Valid()) {
          WithoutPhotoKeepsUniqueIds(ListOf(photos), photoId);
        }
        photos := Some(WithoutPhoto(ListOf(photos), photoId));
      }
      deleting := deleting[photoId := false];
    }
  }

  /**
   * Posting a comment replaces only the photo with that id: the length and
   * every other entry are kept.
   */
  lemma SubmitReplacesOnlyThatPhoto(list: seq<ClientPhoto>, photoId: string, updated: ClientPhoto, i: nat)
    requires UniqueIds(list) && i < |list| && list[i].id == photoId
    ensures var r := ReplaceById(list, photoId, updated);
      && |r| == |list| && r[i] == updated
      && forall k :: 0 <= k < |list| && k != i ==> r[k] == list[k]
  {
  }
}
