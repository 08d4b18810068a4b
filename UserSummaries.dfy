/**
 * frontend/src/hooks/useUserSummaries.js: the photos of every listed user,
 * flattened, and the per-user photo and comment counters over them.
 */
module UserSummaries {
  import opened Common
  import opened JsValues
  import opened PhotoFeed

  /**
   * `arrays.flat()` over the per-user responses, where a failed request
   * contributes `[]` (`.catch(() => [])`).
   */
  function AllPhotos(responses: seq<Option<seq<ClientPhoto>>>): (r: seq<ClientPhoto>)
    ensures responses == [] ==> r == []
    ensures forall p :: p in r <==>
      exists i :: 0 <= i < |responses| && responses[i].Some? && p in responses[i].value
  {
    if responses == [] then []
    else
      var head := if responses[0].Some? then responses[0].value else [];
      var rest := AllPhotos(responses[1..]);
      assert forall p :: p in rest <==>
        exists i :: 1 <= i < |responses| && responses[i].Some? && p in responses[i].value by {
        forall p ensures p in rest <==>
          exists i :: 1 <= i < |responses| && responses[i].Some? && p in responses[i].value {
          if p in rest {
            var j :| 0 <= j < |responses[1..]| && responses[1..][j].Some? && p in responses[1..][j].value;
            assert responses[j + 1] == responses[1..][j];
          }
          if exists i :: 1 <= i < |responses| && responses[i].Some? && p in responses[i].value {
            var i :| 1 <= i < |responses| && responses[i].Some? && p in responses[i].value;
            assert responses[1..][i - 1] == responses[i];
          }
        }
      }
      head + rest
  }

  /** The flattening keeps every response's photos, in user order. */
  lemma {:induction false} AllPhotosConcat(a: seq<Option<seq<ClientPhoto>>>, b: seq<Option<seq<ClientPhoto>>>)
    ensures AllPhotos(a + b) == AllPhotos(a) + AllPhotos(b)
  {
    if a == [] {
      assert a + b == b;
    } else {
      assert (a + b)[1..] == a[1..] + b;
      AllPhotosConcat(a[1..], b);
    }
  }

  /** `allPhotos.filter(p => String(p.user_id) === String(userId)).length`. */
  function PhotoCount(allPhotos: seq<ClientPhoto>, userId: string): (n: nat)
    ensures n <= |allPhotos|
    ensures n == |allPhotos| <==> forall k :: 0 <= k < |allPhotos| ==> ToString(allPhotos[k].owner) == userId
    ensures n == 0 <==> forall k :: 0 <= k < |allPhotos| ==> ToString(allPhotos[k].owner) != userId
  {
    if allPhotos == [] then 0
    else
      var rest := PhotoCount(allPhotos[1..], userId);
      assert forall k :: 1 <= k < |allPhotos| ==> allPhotos[k] == allPhotos[1..][k - 1];
      (if ToString(allPhotos[0].owner) == userId then 1 else 0) + rest
  }

  lemma {:induction false} PhotoCountConcat(a: seq<ClientPhoto>, b: seq<ClientPhoto>, userId: string)
    ensures PhotoCount(a + b, userId) == PhotoCount(a, userId) + PhotoCount(b, userId)
  {
    if a == [] {
      assert a + b == b;
    } else {
      assert (a + b)[1..] == a[1..] + b;
      PhotoCountConcat(a[1..], b, userId);
    }
  }

  /** A user's count is the sum of that user's count over each response. */
  lemma {:induction false} PhotoCountOverResponses(responses: seq<Option<seq<ClientPhoto>>>, userId: string)
    ensures responses != [] ==>
      PhotoCount(AllPhotos(responses), userId)
        == PhotoCount(if responses[0].Some? then responses[0].value else [], userId)
         + PhotoCount(AllPhotos(responses[1..]), userId)
  {
    if responses != [] {
      PhotoCountConcat(if responses[0].Some? then responses[0].value else [], AllPhotos(responses[1..]), userId);
    }
  }

  /** `comments.filter(c => (c.user?._id || c.user_id) === userId).length`: strict equality, no coercion. */
  function MatchCount(cs: seq<ClientComment>, userId: string): (n: nat)
    ensures n <= |cs|
    ensures n == 0 <==> forall k :: 0 <= k < |cs| ==> CommentAuthor(cs[k]) != Str(userId)
  {
    if cs == [] then 0
    else
      var rest := MatchCount(cs[1..], userId);
      assert forall k :: 1 <= k < |cs| ==> cs[k] == cs[1..][k - 1];
      (if StrictEqStr(CommentAuthor(cs[0]), userId) then 1 else 0) + rest
  }

  /** The number of comments by `userId` over all photos: what getCommentCount promises. */
  function CommentTotal(allPhotos: seq<ClientPhoto>, userId: string): nat
  {
    if allPhotos == [] then 0 else MatchCount(CommentsOf(allPhotos[0]), userId) + CommentTotal(allPhotos[1..], userId)
  }

  lemma {:induction false} CommentTotalConcat(a: seq<ClientPhoto>, b: seq<ClientPhoto>, userId: string)
    ensures CommentTotal(a + b, userId) == CommentTotal(a, userId) + CommentTotal(b, userId)
  {
    if a == [] {
      assert a + b == b;
    } else {
      assert (a + b)[1..] == a[1..] + b;
      CommentTotalConcat(a[1..], b, userId);
    }
  }

  /** With no photos, or no photo carrying comments, every comment count is 0. */
  lemma {:induction false} CommentTotalZero(allPhotos: seq<ClientPhoto>, userId: string)
    requires forall k :: 0 <= k < |allPhotos| ==> CommentsOf(allPhotos[k]) == []
    ensures CommentTotal(allPhotos, userId) == 0
  {
    if allPhotos != [] {
      assert CommentsOf(allPhotos[0]) == [];
      assert forall k :: 0 <= k < |allPhotos| - 1 ==> allPhotos[1..][k] == allPhotos[k + 1];
      CommentTotalZero(allPhotos[1..], userId);
    }
  }

  /** getCommentCount: a running count over the photos, each adding its matching comments. */
  method CommentCount(allPhotos: seq<ClientPhoto>, userId: string) returns (count: nat)
    ensures count == CommentTotal(allPhotos, userId)
  {
    count := 0;
    var i := 0;
    while i < |allPhotos|
      invariant 0 <= i <= |allPhotos|
      invariant count == CommentTotal(allPhotos[..i], userId)
    {
      var comments := CommentsOf(allPhotos[i]);
      assert allPhotos[..i + 1] == allPhotos[..i] + [allPhotos[i]];
      CommentTotalConcat(allPhotos[..i], [allPhotos[i]], userId);
      count := count + MatchCount(comments, userId);
      i := i + 1;
    }
    assert allPhotos[..i] == allPhotos;
  }
}
