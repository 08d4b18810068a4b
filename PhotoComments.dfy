/**
 * frontend/src/components/comments/PhotoComments.jsx: who may edit or
 * delete a comment, and the per-comment editing state of the list.
 */
module PhotoComments {
  import opened Common
  import opened JsValues
  import opened PhotoFeed
  import PhotoController

  /** `comment.user?._id || comment.user_id?._id || comment.user_id`. */
  function CommentOwner(c: ClientComment): (r: JsVal)
    ensures Truthy(IdOf(c.user)) ==> r == IdOf(c.user)
    ensures !Truthy(IdOf(c.user)) && Truthy(IdOf(c.userId)) ==> r == IdOf(c.userId)
    ensures !Truthy(IdOf(c.user)) && !Truthy(IdOf(c.userId)) ==> r == c.userId
  {
    Or(Or(IdOf(c.user), IdOf(c.userId)), c.userId)
  }

  /**
   * canModifyComment: nobody without a truthy `_id`; every admin; otherwise
   * the viewer whose `_id` is strictly equal to the owner id as a string.
   */
  function CanModifyComment(c: ClientComment, currentUser: Option<Viewer>): (b: bool)
    ensures currentUser.None? || !Truthy(currentUser.value.id) ==> !b
    ensures currentUser.Some? && Truthy(currentUser.value.id) && IsAdmin(currentUser.value) ==> b
    ensures currentUser.Some? && Truthy(currentUser.value.id) && !IsAdmin(currentUser.value) ==>
      (b <==> currentUser.value.id == Str(ToString(CommentOwner(c))))
  {
    currentUser.Some? && Truthy(currentUser.value.id) &&
    (IsAdmin(currentUser.value) || StrictEqStr(currentUser.value.id, ToString(CommentOwner(c))))
  }

  /** The client's view of a comment the server shaped. */
  function Received(sc: PhotoController.ShapedComment): ClientComment
  {
    ClientComment(sc.id, Some(sc.comment), sc.dateTime, sc.user, Undefined)
  }

  /**
   * The client offers edit and delete on a comment exactly when the server
   * would authorise them, for a logged-in viewer with a string id and role.
   */
  lemma ClientAgreesWithServer(c: PhotoController.Comment, viewerId: string, role: string)
    requires c.author != "" && viewerId != ""
    ensures CanModifyComment(Received(PhotoController.ShapeComment(PhotoController.PopulatedComment(c))), Some(Viewer(Str(viewerId), Str(role))))
        == PhotoController.IsOwnerOrAdmin(Some(c.author), Some(PhotoController.Actor(Some(viewerId), role)))
  {
    var cc := Received(PhotoController.ShapeComment(PhotoController.PopulatedComment(c)));
    assert cc.user == Obj(StrId(c.author));
    assert CommentOwner(cc) == Str(c.author);
  }

  /**
   * A viewer whose stored `_id` is not a string never passes the owner
   * test: only the admin role lets it modify a comment.
   */
  lemma NonStringIdOnlyAdmin(c: ClientComment, v: Viewer)
    requires !v.id.Str?
    ensures CanModifyComment(c, Some(v)) <==> Truthy(v.id) && IsAdmin(v)
  {
  }

  /** The per-comment state of one comment list, keyed by comment id. */
  class CommentEditor {
    var editing: map<string, bool>
    var drafts: map<string, string>
    var saving: map<string, bool>
    var deleting: map<string, bool>

    /** Every comment in edit mode has a draft. */
    ghost predicate Valid()
      reads this
    {
      forall id | id in editing :: editing[id] && id in drafts
    }

    constructor ()
      ensures editing == map[] && drafts == map[] && saving == map[] && deleting == map[]
      ensures Valid()
    {
      editing, drafts, saving, deleting := map[], map[], map[], map[];
    }

    /** startEdit: edit mode on, the draft seeded with the comment text or "". */
    method StartEdit(c: ClientComment)
      modifies this
      ensures editing == old(editing)[c.id := true]
      ensures drafts == old(drafts)[c.id := if c.text.Some? then c.text.value else ""]
      ensures saving == old(saving) && deleting == old(deleting)
      ensures old(Valid()) ==> Valid()
    {
      editing := editing[c.id := true];
      drafts := drafts[c.id := if c.text.Some? then c.text.value else ""];
    }

    /** The text field's onChange: the draft follows the input. */
    method ChangeDraft(id: string, text: string)
      modifies this
      ensures drafts == old(drafts)[id := text]
      ensures editing == old(editing) && saving == old(saving) && deleting == old(deleting)
      ensures old(Valid()) ==> Valid()
    {
      drafts := drafts[id := text];
    }

    /** cancelEdit: the comment leaves edit mode and its draft is dropped; other keys stay. */
    method CancelEdit(id: string)
      modifies this
      ensures editing == old(editing) - {id} && drafts == old(drafts) - {id}
      ensures saving == old(saving) && deleting == old(deleting)
      ensures old(Valid()) ==> Valid()
    {
      editing := editing - {id};
      drafts := drafts - {id};
    }

    /**
     * saveComment: a blank draft sends nothing and changes nothing;
     * otherwise the trimmed draft is sent, edit mode ends when the server
     * accepts it, and the saving flag is cleared either way.
     */
    method SaveComment(id: string, serverAccepts: bool) returns (sent: Option<string>)
      modifies this
      ensures DraftText(old(drafts), id) == "" <==> sent.None?
      ensures sent.Some? ==> sent.value == DraftText(old(drafts), id)
      ensures old(Valid()) && id in old(editing) ==>
        id in old(drafts) && (sent.Some? <==> Trim(old(drafts)[id]) != "") &&
        (sent.Some? ==> sent.value == Trim(old(drafts)[id]))
      ensures sent.None? ==>
        editing == old(editing) && drafts == old(drafts) && saving == old(saving)
      ensures sent.Some? ==> saving == old(saving)[id := false]
      ensures sent.Some? && serverAccepts ==> editing == old(editing) - {id} && drafts == old(drafts) - {id}
      ensures sent.Some? && !serverAccepts ==> editing == old(editing) && drafts == old(drafts)
      ensures deleting == old(deleting)
      ensures old(Valid()) ==> Valid()
    {
      var text := DraftText(drafts, id);
      if text == "" {
        return None;
      }
      saving := saving[id := true];
      sent := Some(text);
      if serverAccepts {
        CancelEdit(id);
      }
      saving := saving[id := false];
    }

    /** deleteComment: after the confirmation, the deleting flag ends cleared. */
    method DeleteComment(id: string, confirmed: bool) returns (sent: bool)
      modifies this
      ensures sent == confirmed
      ensures deleting == if confirmed then old(deleting)[id := false] else old(deleting)
      ensures editing == old(editing) && drafts == old(drafts) && saving == old(saving)
      ensures old(Valid()) ==> Valid()
    {
      if !confirmed {
        return false;
      }
      deleting := deleting[id := true];
      deleting := deleting[id := false];
      return true;
    }
  }
}
