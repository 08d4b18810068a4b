/**
 * frontend/src/pages/protected/Profile.jsx: the signed-in user's own page.
 * It keeps the photo list and the per-photo deleting flags in state and
 * updates them per event.
 */
module Profile {
  import opened Common
  import opened JsValues
  import opened PhotoFeed

  /** `authUser?._id` is truthy: the page and its listeners are active. */
  predicate SignedIn(authUser: Option<Viewer>)
  {
    authUser.Some? && Truthy(authUser.value.id)
  }

  /** canDelete: nobody signed out; every admin; otherwise the owner by string equality. */
  function CanDelete(authUser: Option<Viewer>, photo: ClientPhoto): (b: bool)
    ensures !SignedIn(authUser) ==> !b
    ensures SignedIn(authUser) && IsAdmin(authUser.value) ==> b
    ensures SignedIn(authUser) && !IsAdmin(authUser.value) ==>
      (b <==> authUser.value.id == Str(ToString(OwnerId(photo))))
  {
    SignedIn(authUser) && (IsAdmin(authUser.value) || StrictEqStr(authUser.value.id, ToString(OwnerId(photo))))
  }

  /** handleUploaded's guard: the uploaded photo belongs to the signed-in user, compared as strings. */
  predicate OwnUpload(authUser: Viewer, photo: ClientPhoto)
  {
    ToString(OwnerId(photo)) == ToString(authUser.id)
  }

  class ProfileView {
    const authUser: Option<Viewer>
    var photos: Option<seq<ClientPhoto>>
    var deleting: map<string, bool>

    /** No two listed photos share an id. */
    ghost predicate Valid()
      reads this
    {
      photos.Some? ==> UniqueIds(photos.value)
    }

    constructor (authUser: Option<Viewer>)
      ensures this.authUser == authUser && photos == None && deleting == map[]
      ensures Valid()
    {
      this.authUser := authUser;
      photos := None;
      deleting := map[];
    }

    /** The initial load: the server's list, or [] when the request fails; nothing when signed out. */
    method Loaded(response: Option<seq<ClientPhoto>>)
      modifies this
      ensures SignedIn(authUser) ==> photos == Some(if response.Some? then response.value else [])
      ensures !SignedIn(authUser) ==> photos == old(photos)
      ensures deleting == old(deleting)
      ensures old(Valid()) && (response.Some? ==> UniqueIds(response.value)) ==> Valid()
    {
      if SignedIn(authUser) {
        photos := Some(if response.Some? then response.value else []);
      }
    }

    /** handleUploaded: only the signed-in user's own uploads are upserted. */
    method Uploaded(detail: Option<ClientPhoto>)
      modifies this
      ensures SignedIn(authUser) && detail.Some? && OwnUpload(authUser.value, detail.value) ==>
        photos == Some(Upserted(old(photos), detail.value))
      ensures !(SignedIn(authUser) && detail.Some? && OwnUpload(authUser.value, detail.value)) ==>
        photos == old(photos)
      ensures deleting == old(deleting)
      ensures old(Valid()) ==> Valid()
    {
      if !SignedIn(authUser) || detail.None? {
        return;
      }
      var photo := detail.value;
      var ownerId := OwnerId(photo);
      if ToString(ownerId) != ToString(authUser.value.id) {
        return;
      }
      if old(Valid()) {
        UpsertKeepsUniqueIds(photos, photo);
      }
      var next := Upsert(photos, photo);
      photos := Some(next);
    }

    /** handleEditComment and handleDeleteComment: the server's copy of the photo is upserted. */
    method CommentChanged(updated: ClientPhoto)
      modifies this
      ensures photos == Some(Upserted(old(photos), updated))
      ensures deleting == old(deleting)
      ensures old(Valid()) ==> Valid()
    {
      if old(Valid()) {
        UpsertKeepsUniqueIds(photos, updated);
      }
      var next := Upsert(photos, updated);
      photos := Some(next);
    }

    /**
     * handleDelete: after the confirmation, a successful delete filters the
     * photo out; the deleting flag ends cleared either way.
     */
    method Delete(photoId: string, confirmed: bool, serverDeleted: bool)
      modifies this
      ensures !confirmed ==> photos == old(photos) && deleting == old(deleting)
      ensures confirmed ==> deleting == old(deleting)[photoId := false]
      ensures confirmed && serverDeleted ==> photos == Some(WithoutPhoto(ListOf(old(photos)), photoId))
      ensures confirmed && !serverDeleted ==> photos == old(photos)
      ensures old(Valid()) ==> Valid()
    {
      if !confirmed {
        return;
      }
      deleting := deleting[photoId := true];
      if serverDeleted {
        if old(Valid()) {
          WithoutPhotoKeepsUniqueIds(ListOf(photos), photoId);
        }
        photos := Some(WithoutPhoto(ListOf(photos), photoId));
      }
      deleting := deleting[photoId := false];
    }
  }

  /** After a successful delete no photo with that id is listed, and deleting it again changes nothing. */
  lemma DeleteRemovesPhoto(list: seq<ClientPhoto>, photoId: string)
    ensures forall p | p in WithoutPhoto(list, photoId) :: p.id != photoId
    ensures WithoutPhoto(WithoutPhoto(list, photoId), photoId) == WithoutPhoto(list, photoId)
  {
    WithoutPhotoIdempotent(list, photoId);
  }
}
