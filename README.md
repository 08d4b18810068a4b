# Photo-sharing app: friends, comments and photo lists

This project models the core of a small photo-sharing web application, a
Node/Express API over MongoDB with a React client, and proves properties of
that model.

- **Server.** The model covers:
  - the friend-relationship engine of the user controller: status lookup, send, accept, reject, cancel and unfriend, over each user's `friends`, `incomingRequests` and `outgoingRequests` lists;
  - the `register` validator;
  - the photo controller's ownership check, its response shaping, and its comment, delete and like handlers.
- **Client.**
  - The comment list's permission check and its per-comment edit state.
  - The photo lists that the profile page and a user's photo page keep in state: normalize, upsert, the delete filter, the replace-by-id after posting a comment, and the upload filter.
  - The per-user photo and comment counters.
  - The page that collects one user's comments, newest first.

The model is laid out as follows:

- `Common`: `Option` and `Result`.
- `IdLists`: the id lists and their helpers.
  - `hasId` is `HasId`.
  - `removeId` is `RemoveId`.
  - The "push if absent" step is `AddOnce`.
  - `NoDups` is the no-duplicates property.
- `JsValues`: JavaScript values as far as the core depends on them.
  - truthiness, `||`, `?._id`, `String(v)` and strict equality with a string;
  - request-body fields;
  - `String.prototype.trim` with the ECMAScript whitespace set.
- `FriendGraph`: the user store as a map from id to relationship record.
  - Pure transition functions, one per friend handler.
  - The store invariant `Valid`:
    - friend symmetry;
    - request duality;
    - no self entries and no duplicates;
    - one relation per pair;
    - no dangling ids.
- `FriendInvariants`: every transition preserves `Valid`.
- `FriendProperties`: what each friend handler does to the pair, with idempotence and the request/accept/unfriend lifecycle.
- `UserController`: `register` as a function, and `UserStore`.
  - `UserStore` is a class whose methods are the friend handlers.
  - Each method rewrites the two loaded records step by step and writes both back.
  - Each is proved equal to its `FriendGraph` transition.
- `PhotoController`: `isOwnerOrAdmin`, `shapePhoto`, and `PhotoStore`.
  - `PhotoStore` is a class over the photo collection.
  - Its methods are `addComment`, `updateComment`, `deleteComment`, `deletePhoto`, `likePhoto` and `unlikePhoto`.
- `PhotoFeed`: the client's photo records and the list helpers that `Profile.jsx` and `UserPhotos.jsx` both define.
- `PhotoComments`, `Profile`, `UserPhotos`: each page's permission function and its state as a class, one method per event handler.
- `UserSummaries`, `UserComments`: the two hooks/pages that aggregate over all photos.

Outside effects are parameters:

- The outcome of an API call (`serverAccepts`, `serverDeleted`, a response `Option`).
- A `window.confirm` answer (`confirmed`).
- The current time (`now`) and a fresh comment id (`newId`).

## Model

| member | source | states |
|---|---|---|
| IdLists.HasId | backend/src/controllers/userController.js:12 | true exactly when the id occurs in the list |
| IdLists.RemoveId | backend/src/controllers/userController.js:13 | keeps exactly the entries different from the id, with their multiplicities; the list never grows |
| IdLists.RemoveIdConcat | backend/src/controllers/userController.js:13 | the filter distributes over concatenation, so the remaining entries keep their order |
| IdLists.RemoveIdAbsent | backend/src/controllers/userController.js:13 | removing an id that is absent leaves the list unchanged |
| IdLists.RemoveIdIdempotent | backend/src/controllers/userController.js:13 | removing an id twice is removing it once |
| IdLists.RemoveIdNoDups | backend/src/controllers/userController.js:13 | removing keeps a duplicate-free list duplicate-free |
| IdLists.AddOnce | backend/src/controllers/userController.js:201-202 | push-if-absent: membership becomes old membership plus the id; unchanged if present, appended once if absent |
| IdLists.AddOnceNoDups | backend/src/controllers/userController.js:201-202 | push-if-absent never creates a duplicate |
| IdLists.AppendFreshNoDups | backend/src/controllers/userController.js:212-213 | appending an absent id keeps a list duplicate-free |
| JsValues.Or | backend/src/controllers/photoController.js:24 | `a \|\| b` is `a` when truthy, else `b` |
| JsValues.IdOf | frontend/src/components/comments/PhotoComments.jsx:18-19 | `v?._id` is a string exactly for an object carrying a string `_id`, and never null |
| JsValues.ToString | frontend/src/hooks/useUserSummaries.js:51 | `String(v)` of a string is the string itself |
| JsValues.StrictEqImpliesStringEq | frontend/src/pages/users/UserComments.jsx:37 | strict equality with a string implies equality after `String(...)` |
| JsValues.StringEqWithoutStrictEq | frontend/src/pages/users/UserComments.jsx:37 | the converse fails: an object without `_id` equals "[object Object]" only after coercion |
| JsValues.TrimStart | backend/src/controllers/userController.js:85 | the result is no longer than the input, starts with non-whitespace, and what was dropped is all whitespace |
| JsValues.TrimEnd | backend/src/controllers/userController.js:85 | the result is no longer than the input, ends with non-whitespace, and what was dropped is all whitespace |
| JsValues.TrimStartSuffix | backend/src/controllers/userController.js:85 | TrimStart keeps a suffix of its input |
| JsValues.TrimEndPrefix | backend/src/controllers/userController.js:85 | TrimEnd keeps a prefix of its input |
| JsValues.TrimEmptyIffBlank | backend/src/controllers/userController.js:85 | `s.trim() === ''` exactly when every character is whitespace |
| JsValues.TrimShape | backend/src/controllers/userController.js:104-107 | a trimmed string is a slice of the input with no whitespace at either end |
| JsValues.TrimIdempotent | backend/src/controllers/userController.js:104-107 | trimming twice is trimming once |
| FriendGraph.HttpStatus | backend/src/controllers/userController.js:171-222 | every refusal maps to 400, 401 or 404 |
| FriendGraph.Classify | backend/src/controllers/userController.js:154-164 | friends, then incoming, then outgoing, then none, each only when the higher ones fail |
| FriendGraph.Status | backend/src/controllers/userController.js:132-169 | `self` exactly when current equals target, decided before any record is read; otherwise the classification of current's record |
| FriendGraph.Befriend | backend/src/controllers/userController.js:197-203 | only the pair's records change |
| FriendGraph.Request | backend/src/controllers/userController.js:212-215 | only the pair's records change |
| FriendGraph.SendRequest | backend/src/controllers/userController.js:171-222 | a refusal leaves the store unchanged; success needs distinct existing users, answers friends or outgoing, and touches only the pair |
| FriendGraph.Accept | backend/src/controllers/userController.js:224-259 | a refusal changes nothing; success needs a pending incoming request and is exactly Befriend |
| FriendGraph.Lookup | backend/src/controllers/userController.js:266-277 | no error exactly when both users exist |
| FriendGraph.Reject | backend/src/controllers/userController.js:261-289 | succeeds exactly when both users exist, whether or not a request is pending; answers none and touches only the pair |
| FriendGraph.Cancel | backend/src/controllers/userController.js:291-319 | succeeds exactly when both users exist; answers none and touches only the pair |
| FriendGraph.Forget | backend/src/controllers/userController.js:339-345 | the other user is in none of the three lists afterwards |
| FriendGraph.Unfriend | backend/src/controllers/userController.js:321-354 | succeeds exactly when both users exist; answers none and touches only the pair |
| FriendInvariants.FriendsSymmetricAfter | backend/src/controllers/userController.js:201-202 | a pair update that keeps the pair's friendship mutual keeps friendship symmetric |
| FriendInvariants.RequestsDualAfter | backend/src/controllers/userController.js:198-199 | a pair update that changes both markers together keeps every outgoing request matched by an incoming one |
| FriendInvariants.WellFormedAfter | backend/src/controllers/userController.js:203 | records outside the pair keep their well-formedness |
| FriendInvariants.ListsWithinAfter | backend/src/controllers/userController.js:203 | no list gains an id of a user that does not exist |
| FriendInvariants.WellFormedShrink | backend/src/controllers/userController.js:279-280 | a record whose lists only lose entries stays well formed |
| FriendInvariants.BefriendPreservesValid | backend/src/controllers/userController.js:197-203 | the accept step keeps the store invariant |
| FriendInvariants.RequestPreservesValid | backend/src/controllers/userController.js:212-215 | a plain request between unrelated users keeps the store invariant |
| FriendInvariants.SendPreservesValid | backend/src/controllers/userController.js:171-222 | sendFriendRequest keeps the store invariant |
| FriendInvariants.AcceptPreservesValid | backend/src/controllers/userController.js:224-259 | acceptFriendRequest keeps the store invariant |
| FriendInvariants.DropRequestPreservesValid | backend/src/controllers/userController.js:279-280 | clearing one pending request from both records of two distinct users keeps the store invariant |
| FriendInvariants.RejectPreservesValid | backend/src/controllers/userController.js:261-289 | rejectFriendRequest keeps the store invariant |
| FriendInvariants.CancelPreservesValid | backend/src/controllers/userController.js:291-319 | cancelFriendRequest keeps the store invariant |
| FriendInvariants.ForgetShrinks | backend/src/controllers/userController.js:339-345 | forgetting a user keeps a record well formed |
| FriendInvariants.ForgetAbsent | backend/src/controllers/userController.js:339-345 | forgetting oneself changes nothing in a record without self entries |
| FriendInvariants.UnfriendPreservesValid | backend/src/controllers/userController.js:321-354 | unfriend keeps the store invariant |
| FriendInvariants.UnfriendDistinctPreservesValid | backend/src/controllers/userController.js:339-347 | clearing a pair of distinct users keeps the store invariant |
| FriendInvariants.AddUserPreservesValid | backend/src/models/User.js:22-33 | a new user with empty lists keeps the store invariant |
| FriendProperties.ClassifyUnambiguous | backend/src/controllers/userController.js:154-164 | in a well-formed record the priority order hides nothing: incoming or outgoing exactly when that marker is present |
| FriendProperties.StatusMirrored | backend/src/controllers/userController.js:132-169 | both users of a valid pair get a status, and one sees the mirror of the other (incoming against outgoing) |
| FriendProperties.SendRefusals | backend/src/controllers/userController.js:180-210 | self request, an existing friend and a pending request in either record are refused with the store unchanged |
| FriendProperties.SendPlainEffect | backend/src/controllers/userController.js:212-217 | a plain request appends exactly one marker on each side and leaves the friends lists alone |
| FriendProperties.BefriendEffect | backend/src/controllers/userController.js:197-205 | after accepting, each lists the other exactly once as a friend, no marker is left, and both see friends |
| FriendProperties.NoDupsCountsOne | backend/src/controllers/userController.js:201-202 | in a duplicate-free list a present id occurs exactly once |
| FriendProperties.AcceptNeedsPendingRequest | backend/src/controllers/userController.js:242-244 | accept succeeds exactly when the request is pending, and otherwise changes nothing |
| FriendProperties.ImplicitAccept | backend/src/controllers/userController.js:197-205 | sending to someone who already asked you makes you friends, the same as accepting |
| FriendProperties.RejectEffect | backend/src/controllers/userController.js:279-280 | reject clears only the requester-to-me markers |
| FriendProperties.CancelEffect | backend/src/controllers/userController.js:309-310 | cancel clears only the me-to-target markers |
| FriendProperties.UnfriendClears | backend/src/controllers/userController.js:339-349 | after unfriend both users see none |
| FriendProperties.RejectIdempotent | backend/src/controllers/userController.js:279-284 | rejecting twice gives the same store and answer as once |
| FriendProperties.CancelIdempotent | backend/src/controllers/userController.js:309-314 | cancelling twice gives the same store and answer as once |
| FriendProperties.ForgetIdempotent | backend/src/controllers/userController.js:339-345 | forgetting twice is forgetting once |
| FriendProperties.UnfriendIdempotent | backend/src/controllers/userController.js:339-349 | unfriending twice gives the same store and answer as once |
| FriendProperties.RequestAcceptUnfriend | backend/src/controllers/userController.js:171-354 | request, accept, then unfriend takes an unrelated pair to outgoing, to friends, and back to unrelated |
| UserController.Register | backend/src/controllers/userController.js:72-111 | login name, password, first and last name are required in that order; a taken trimmed login name is refused; success stores trimmed values, defaults and the user role |
| UserController.RegisteredNamesTrimmed | backend/src/controllers/userController.js:104-107 | stored names and password are non-blank and already trimmed |
| UserController.RegisterTwiceRefused | backend/src/controllers/userController.js:98-101 | once a login name is taken, registering it again is refused |
| UserController.RegisterPaddedLoginRefused | backend/src/controllers/userController.js:98-101 | padding a taken login name with whitespace does not get round the check |
| UserController.TrimAroundWhitespace | backend/src/controllers/userController.js:98 | trimming ignores whitespace added on both sides |
| UserController.UserStore.AddUser | backend/src/models/User.js:22-33 | a new user gets three empty lists; the invariant is kept |
| UserController.UserStore.GetFriendStatus | backend/src/controllers/userController.js:132-169 | answers exactly Status of the store |
| UserController.UserStore.SendFriendRequest | backend/src/controllers/userController.js:171-222 | answer and new store are those of SendRequest; the invariant is kept |
| UserController.UserStore.AcceptFriendRequest | backend/src/controllers/userController.js:224-259 | answer and new store are those of Accept; the invariant is kept |
| UserController.UserStore.RejectFriendRequest | backend/src/controllers/userController.js:261-289 | answer and new store are those of Reject; the invariant is kept |
| UserController.UserStore.CancelFriendRequest | backend/src/controllers/userController.js:291-319 | answer and new store are those of Cancel; the invariant is kept |
| UserController.UserStore.UnfriendUser | backend/src/controllers/userController.js:321-354 | answer and new store are those of Unfriend; the invariant is kept |
| PhotoController.IsOwnerOrAdmin | backend/src/controllers/photoController.js:11-12 | false without a user, true for an admin, otherwise true exactly when the owner id equals the user's id |
| PhotoController.ActorId | backend/src/controllers/photoController.js:65-66 | `req.user?._id` is present exactly when the user has a non-empty id |
| PhotoController.HttpStatus | backend/src/controllers/photoController.js:55-252 | every refusal maps to 400, 401, 403 or 404 |
| PhotoController.FindComment | backend/src/controllers/photoController.js:152-153 | `comments.id(id)` finds the first comment with that id, or reports that none has it |
| PhotoController.RemoveComment | backend/src/controllers/photoController.js:188-190 | the filtered list is never longer |
| PhotoController.RemoveCommentMembers | backend/src/controllers/photoController.js:188-190 | keeps exactly the comments with a different id |
| PhotoController.RemoveCommentConcat | backend/src/controllers/photoController.js:188-190 | the filter keeps the order of the rest |
| PhotoController.RemoveUniqueComment | backend/src/controllers/photoController.js:188-190 | with unique ids, deleting removes exactly that one comment, in place |
| PhotoController.RemoveCommentAbsent | backend/src/controllers/photoController.js:188-190 | filtering an absent id changes nothing |
| PhotoController.LikeThenUnlike | backend/src/controllers/photoController.js:215-243 | a like followed by an unlike leaves the likes as the unlike alone would |
| PhotoController.ReplacePhotoValid | backend/src/controllers/photoController.js:74 | saving a well-formed photo keeps the collection valid |
| PhotoController.AppendFreshComment | backend/src/controllers/photoController.js:68-72 | appending a comment with a fresh id keeps comment ids unique |
| PhotoController.EditKeepsIds | backend/src/controllers/photoController.js:159-160 | editing a comment's text keeps comment ids unique |
| PhotoController.RemoveKeepsUnique | backend/src/controllers/photoController.js:188-191 | deleting a comment keeps comment ids unique |
| PhotoController.ShapeComment | backend/src/controllers/photoController.js:19-24 | id, text and date are kept; `user` is `c.user` when truthy, else `c.user_id` |
| PhotoController.ShapeComments | backend/src/controllers/photoController.js:19-24 | comments are shaped one to one, in order |
| PhotoController.ShapePhoto | backend/src/controllers/photoController.js:14-27 | null for no document; otherwise every field is kept, likes default to [] and comments map one to one |
| PhotoController.ShapeReadBack | backend/src/controllers/photoController.js:29-33 | a read-back photo shapes to its comments in order, each `user` being the populated author |
| PhotoController.ShapeAfterAppend | backend/src/controllers/photoController.js:68-78 | after addComment the answer is the earlier comments followed by the new one |
| PhotoController.PhotoStore.AddComment | backend/src/controllers/photoController.js:55-82 | a blank comment first (400), then a missing photo (400), then no user (401); succeeds exactly when none of these applies, appending one trimmed comment by the actor and changing only that photo |
| PhotoController.PhotoStore.UpdateComment | backend/src/controllers/photoController.js:137-168 | blank text, missing photo or comment, and a non-owner non-admin (403, exactly) are refused with no change; succeeds exactly when every guard passes, replacing only that comment's text with the trimmed text |
| PhotoController.PhotoStore.DeleteComment | backend/src/controllers/photoController.js:171-199 | missing photo or comment, and a non-owner non-admin (403, exactly) are refused; succeeds exactly when every guard passes, removing the comments with that id and keeping the rest in order |
| PhotoController.PhotoStore.DeletePhoto | backend/src/controllers/photoController.js:108-134 | 404 for a missing photo; removed exactly when isOwnerOrAdmin holds against its owner, otherwise 403 and unchanged |
| PhotoController.PhotoStore.LikePhoto | backend/src/controllers/photoController.js:202-227 | 401 without a user, 404 without the photo, success otherwise; the likes gain the user only if absent |
| PhotoController.PhotoStore.UnlikePhoto | backend/src/controllers/photoController.js:230-252 | 401 without a user, 404 without the photo, success otherwise; every occurrence of the user is removed |
| PhotoFeed.OwnerId | frontend/src/pages/protected/Profile.jsx:91 | `user_id?._id \|\| user_id`: the populated id when present, else the raw id string |
| PhotoFeed.CommentAuthor | frontend/src/hooks/useUserSummaries.js:57 | `c.user?._id \|\| c.user_id`: the populated author id when present, else `user_id` |
| PhotoFeed.Normalize | frontend/src/pages/protected/Profile.jsx:20-23 | every field is kept and comments default to [] |
| PhotoFeed.NormalizeIdempotent | frontend/src/pages/protected/Profile.jsx:20-23 | normalizing twice is normalizing once |
| PhotoFeed.FirstIndex | frontend/src/pages/protected/Profile.jsx:29 | the first position with that id, or none when no photo has it |
| PhotoFeed.FindIndex | frontend/src/pages/users/UserPhotos.jsx:34 | `findIndex` returns the first matching index, or -1 when no photo matches |
| PhotoFeed.Upsert | frontend/src/pages/users/UserPhotos.jsx:30-41 | copying the list and overwriting the found slot, or prepending, gives exactly Upserted |
| PhotoFeed.UpsertReplaces | frontend/src/pages/protected/Profile.jsx:29-34 | with a photo of that id, the length is kept, the first match is replaced by the normalized photo, and nothing else changes |
| PhotoFeed.UpsertPrepends | frontend/src/pages/protected/Profile.jsx:28-35 | without one, the normalized photo is prepended and the length grows by one; null counts as empty |
| PhotoFeed.UpsertKeepsUniqueIds | frontend/src/pages/protected/Profile.jsx:25-36 | upsert keeps photo ids unique and leaves the photo in the list |
| PhotoFeed.UpsertIdempotent | frontend/src/pages/protected/Profile.jsx:25-36 | upserting the same photo twice is upserting it once |
| PhotoFeed.WithoutPhoto | frontend/src/pages/protected/Profile.jsx:102 | keeps exactly the photos with a different id |
| PhotoFeed.WithoutPhotoConcat | frontend/src/pages/protected/Profile.jsx:102 | the delete filter keeps the order of the rest |
| PhotoFeed.WithoutPhotoAbsent | frontend/src/pages/users/UserPhotos.jsx:106 | deleting an absent id changes nothing |
| PhotoFeed.WithoutPhotoIdempotent | frontend/src/pages/users/UserPhotos.jsx:106 | deleting twice is deleting once |
| PhotoFeed.WithoutPhotoKeepsUniqueIds | frontend/src/pages/users/UserPhotos.jsx:106 | the delete filter keeps photo ids unique |
| PhotoFeed.ReplaceById | frontend/src/pages/users/UserPhotos.jsx:81-83 | the length is kept; photos with that id become the server copy, the others stay |
| PhotoFeed.ReplaceKeepsUniqueIds | frontend/src/pages/users/UserPhotos.jsx:81-83 | replacing by a copy with the same id keeps ids unique |
| PhotoFeed.ReplaceAgreesWithUpsert | frontend/src/pages/users/UserPhotos.jsx:81-83 | on a listed photo with unique ids, the replace-by-id map and upsert give the same list |
| PhotoFeed.ReplaceDropsUnlisted | frontend/src/pages/users/UserPhotos.jsx:81-83 | for an unlisted photo, the map changes nothing where upsert would prepend |
| PhotoFeed.SentDraftAccepted | frontend/src/pages/users/UserPhotos.jsx:72-79 | a sent draft passes the server's blank check and is stored exactly as sent |
| PhotoComments.CommentOwner | frontend/src/components/comments/PhotoComments.jsx:17-20 | the owner id falls back from `user._id` to `user_id._id` to `user_id` |
| PhotoComments.CanModifyComment | frontend/src/components/comments/PhotoComments.jsx:15-22 | false without a truthy viewer id, true for an admin, otherwise exactly when the viewer id equals the owner id as a string |
| PhotoComments.ClientAgreesWithServer | frontend/src/components/comments/PhotoComments.jsx:15-22 | for a comment the server shaped, the client offers edit and delete exactly when the server's isOwnerOrAdmin allows them |
| PhotoComments.NonStringIdOnlyAdmin | frontend/src/components/comments/PhotoComments.jsx:21 | a viewer whose id is not a string passes only as an admin |
| PhotoComments.CommentEditor.StartEdit | frontend/src/components/comments/PhotoComments.jsx:38-41 | edit mode on and the draft seeded with the text or ""; other keys unchanged; every edited comment has a draft |
| PhotoComments.CommentEditor.ChangeDraft | frontend/src/components/comments/PhotoComments.jsx:138-143 | only that draft changes |
| PhotoComments.CommentEditor.CancelEdit | frontend/src/components/comments/PhotoComments.jsx:43-54 | removes the key from editing and drafts and nothing else |
| PhotoComments.CommentEditor.SaveComment | frontend/src/components/comments/PhotoComments.jsx:56-68 | a blank draft sends nothing and changes nothing; otherwise the trimmed draft is sent (for a comment in edit mode, exactly the trimmed text typed into it), edit mode ends on success, and saving ends false |
| PhotoComments.CommentEditor.DeleteComment | frontend/src/components/comments/PhotoComments.jsx:70-80 | nothing without confirmation; otherwise the deleting flag ends false |
| Profile.CanDelete | frontend/src/pages/protected/Profile.jsx:89-93 | false without a truthy id, true for an admin, otherwise exactly for the owner by string comparison |
| Profile.ProfileView.Loaded | frontend/src/pages/protected/Profile.jsx:56-72 | the server list, or [] on failure, only when signed in; a list with unique photo ids keeps the invariant |
| Profile.ProfileView.Uploaded | frontend/src/pages/protected/Profile.jsx:77-83 | only the signed-in user's own uploads are upserted; ids stay unique |
| Profile.ProfileView.CommentChanged | frontend/src/pages/protected/Profile.jsx:95-120 | the server copy is upserted; ids stay unique |
| Profile.ProfileView.Delete | frontend/src/pages/protected/Profile.jsx:97-108 | a confirmed, successful delete filters the photo out; the deleting flag ends false; ids stay unique |
| Profile.DeleteRemovesPhoto | frontend/src/pages/protected/Profile.jsx:102 | no photo with that id remains, and deleting again changes nothing |
| UserPhotos.CanDelete | frontend/src/pages/users/UserPhotos.jsx:95-99 | false without a stored user, true for an admin, otherwise exactly for the owner by string comparison |
| UserPhotos.CanDeleteAcrossPages | frontend/src/pages/users/UserPhotos.jsx:95-99 | agrees with the profile page for a viewer with a truthy id; an admin without an id may delete here but not there |
| UserPhotos.UserPhotosView.Loaded | frontend/src/pages/users/UserPhotos.jsx:43-54 | the server list; a failed request leaves it unchanged; a list with unique photo ids keeps the invariant |
| UserPhotos.UserPhotosView.Uploaded | frontend/src/pages/users/UserPhotos.jsx:56-66 | only uploads owned by the viewed user are upserted; ids stay unique |
| UserPhotos.UserPhotosView.ChangeDraft | frontend/src/pages/users/UserPhotos.jsx:68-69 | only that draft changes |
| UserPhotos.UserPhotosView.SubmitComment | frontend/src/pages/users/UserPhotos.jsx:71-91 | a blank draft sends nothing; otherwise the trimmed draft is sent; on success only that photo is replaced and its draft reset to ""; submitting ends false |
| UserPhotos.UserPhotosView.CommentChanged | frontend/src/pages/users/UserPhotos.jsx:114-124 | the server copy is upserted; ids stay unique |
| UserPhotos.UserPhotosView.Delete | frontend/src/pages/users/UserPhotos.jsx:101-112 | a confirmed, successful delete filters the photo out; the deleting flag ends false |
| UserPhotos.SubmitReplacesOnlyThatPhoto | frontend/src/pages/users/UserPhotos.jsx:81-83 | after a comment the length is kept and only the matching photo changes |
| UserSummaries.AllPhotos | frontend/src/hooks/useUserSummaries.js:26-34 | a photo is listed exactly when some successful response holds it; no users gives no photos |
| UserSummaries.AllPhotosConcat | frontend/src/hooks/useUserSummaries.js:27-31 | the flattening keeps user order |
| UserSummaries.PhotoCount | frontend/src/hooks/useUserSummaries.js:50-51 | at most the number of photos; all of them exactly when every owner matches, 0 exactly when none does |
| UserSummaries.PhotoCountConcat | frontend/src/hooks/useUserSummaries.js:50-51 | counts add up over concatenation |
| UserSummaries.PhotoCountOverResponses | frontend/src/hooks/useUserSummaries.js:27-31 | the count over the flattened photos is the sum over the responses |
| UserSummaries.MatchCount | frontend/src/hooks/useUserSummaries.js:57 | at most the number of comments; 0 exactly when no author is strictly equal to the id |
| UserSummaries.CommentTotalConcat | frontend/src/hooks/useUserSummaries.js:53-60 | comment totals add up over concatenation |
| UserSummaries.CommentTotalZero | frontend/src/hooks/useUserSummaries.js:53-60 | 0 when there are no photos or no photo has comments |
| UserSummaries.CommentCount | frontend/src/hooks/useUserSummaries.js:53-60 | the running-count loop returns the total of strictly matching comments over all photos |
| UserComments.FetchedPhotos | frontend/src/pages/users/UserComments.jsx:23-30 | no users gives no photos |
| UserComments.FetchedPhotosConcat | frontend/src/pages/users/UserComments.jsx:27-29 | the flattening keeps user order |
| UserComments.FailedFetchAddsNothing | frontend/src/pages/users/UserComments.jsx:28 | a rejected or non-array result adds nothing |
| UserComments.FromPhoto | frontend/src/pages/users/UserComments.jsx:36-38 | exactly the photo's comments by the user, each carrying that photo |
| UserComments.Matching | frontend/src/pages/users/UserComments.jsx:34-39 | exactly the pairs of a listed photo and one of its comments by the user |
| UserComments.Insert | frontend/src/pages/users/UserComments.jsx:40 | adds exactly one entry and keeps a newest-first list newest first |
| UserComments.SortNewestFirst | frontend/src/pages/users/UserComments.jsx:40 | a permutation of its input, newest first |
| UserComments.CollectSpec | frontend/src/pages/users/UserComments.jsx:32-42 | the collected comments are newest first, a permutation of the matches, and exactly the user's comments with their photos |
| UserComments.StrictCountAtMostCollected | frontend/src/pages/users/UserComments.jsx:37 | the strict comment count of the user list never exceeds the coerced count of this page |
| UserComments.CountsCanDiffer | frontend/src/hooks/useUserSummaries.js:57 | the two counts differ for an author object without `_id` |

## Left out

- **Storage.** MongoDB and mongoose are not modelled: `findById`, `find`, `populate`, `lean`, `save`, `deleteOne` and the unique-index race on register. The user and photo collections are maps from id to record.
- **ObjectId validity.** Ids are plain strings compared by equality, so the 400 answers for an invalid ObjectId are not modelled.
- **Timestamps.** `new Date()` becomes a `now` parameter. Client dates are integers; parsing them with `new Date(...)` is not modelled.
- **Concurrency.** The concurrent reads and saves of `Promise.all` / `Promise.allSettled` and the races between them are not modelled. Each handler is one atomic update, and one settled result stands for each fetch.
- **The 500 catch-all.** No modelled operation can throw.
- **Same-user reject, cancel and unfriend.** The source loads two copies of one document for these; here the second write of the pair wins, as map update does.
- **Other server handlers.** `listFriends`, `getFriendRequests`, `searchUsersByName`, `getUserList`, `getUserById` and `getPhotosOfUser` are query projections whose order the database decides. Login, the JWT middleware, uploads (multer, file names, `fs.unlink`) and the Express wiring are I/O.
- **Client I/O and rendering.** The API layer, `localStorage`, `window` events, `alert`, the React rendering and the routing are not modelled. A response is a parameter, and an event's detail is an `Option`.
- **Intermediate flags.** The deleting, saving and submitting flags are set to true while the request is in flight. The model keeps only their final value.
- **Photo ids on the client.** They are always strings. A `null` photo passed to `normalizePhoto` (which would yield a photo with no `_id`) is not modelled.
- **Register fields.** The optional fields `location`, `description` and `occupation` are modelled as present strings or absent. A `null` or non-string value for them is not modelled.
- **Likes outside the schema.** `PhotoController.PhotoStore.LikePhoto` and `UnlikePhoto` model the likes list as the controller uses it. The photo schema declares no `likes` field, and no route reaches the two handlers. Mongoose's handling of a field that is not in the schema is not modelled.
- **Fresh comment ids.** `PhotoController.PhotoStore.AddComment` keeps comment ids unique only when the new id is fresh. The database's id generation is left out, so freshness is an assumption of that preservation clause.
- **Stable sort.** `UserComments.SortNewestFirst` keeps equal dates in input order by construction, as `Array.prototype.sort` does. That stability is not stated as a separate property.
