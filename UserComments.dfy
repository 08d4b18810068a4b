/**
 * frontend/src/pages/users/UserComments.jsx: every comment one user wrote,
 * gathered from all users' photos, each with its photo, newest first.
 */
module UserComments {
  import opened Common
  import opened JsValues
  import opened PhotoFeed
  import UserSummaries

  /**
   * One `Promise.allSettled` result: fulfilled with the response body,
   * which is `Some` when it is an array, or rejected.
   */
  datatype Settled = Fulfilled(body: Option<seq<ClientPhoto>>) | Rejected

  function Photos(s: Settled): seq<ClientPhoto>
  {
    if s.Fulfilled? && s.body.Some? then s.body.value else []
  }

  /** fetchPhotosForUsers: the fulfilled array results, concatenated in user order. */
  function FetchedPhotos(results: seq<Settled>): (r: seq<ClientPhoto>)
    ensures results == [] ==> r == []
  {
    if results == [] then [] else Photos(results[0]) + FetchedPhotos(results[1..])
  }

  lemma {:induction false} FetchedPhotosConcat(a: seq<Settled>, b: seq<Settled>)
    ensures FetchedPhotos(a + b) == FetchedPhotos(a) + FetchedPhotos(b)
  {
    if a == [] {
      assert a + b == b;
    } else {
      assert (a + b)[1..] == a[1..] + b;
      FetchedPhotosConcat(a[1..], b);
    }
  }

  /** A rejected request or a body that is not an array adds nothing. */
  lemma {:induction false} FailedFetchAddsNothing(before: seq<Settled>, failed: Settled, after: seq<Settled>)
    requires failed.Rejected? || failed.body.None?
    ensures FetchedPhotos(before + [failed] + after) == FetchedPhotos(before) + FetchedPhotos(after)
  {
    var mid := [failed];
    var front := before + mid;
    FetchedPhotosConcat(front, after);
    FetchedPhotosConcat(before, mid);
    FailedFetchEmpty(failed);
    assert FetchedPhotos(front) == FetchedPhotos(before);
  }

  lemma FailedFetchEmpty(failed: Settled)
    requires failed.Rejected? || failed.body.None?
    ensures FetchedPhotos([failed]) == []
  {
    assert [failed][1..] == [];
  }

  /** A collected comment: `{ ...c, photo }`. */
  datatype UserComment = UserComment(comment: ClientComment, photo: ClientPhoto)

  /** `String(c.user?._id || c.user_id) === String(userId)`. */
  predicate ByUser(c: ClientComment, userId: string)
  {
    ToString(CommentAuthor(c)) == userId
  }

  /** One photo's comments by the user, each paired with that photo, in comment order. */
  function FromPhoto(cs: seq<ClientComment>, photo: ClientPhoto, userId: string): (r: seq<UserComment>)
    ensures forall x :: x in r <==> x.photo == photo && x.comment in cs && ByUser(x.comment, userId)
    ensures |r| <= |cs|
  {
    if cs == [] then []
    else if ByUser(cs[0], userId) then [UserComment(cs[0], photo)] + FromPhoto(cs[1..], photo, userId)
    else FromPhoto(cs[1..], photo, userId)
  }

  /** The flatMap over all photos, before sorting. */
  function Matching(photos: seq<ClientPhoto>, userId: string): (r: seq<UserComment>)
    ensures forall x :: x in r <==> x.photo in photos && x.comment in CommentsOf(x.photo) && ByUser(x.comment, userId)
  {
    if photos == [] then []
    else
      var rest := Matching(photos[1..], userId);
      assert forall p :: p in photos <==> p == photos[0] || p in photos[1..] by {
        assert photos == [photos[0]] + photos[1..];
      }
      FromPhoto(CommentsOf(photos[0]), photos[0], userId) + rest
  }

  /** Newest first by `date_time`. */
  predicate NewestFirst(xs: seq<UserComment>)
  {
    forall i, j :: 0 <= i < j < |xs| ==> xs[i].comment.dateTime >= xs[j].comment.dateTime
  }

  /** Places `x` before the first entry that is not newer, so equal dates keep their order. */
  function Insert(x: UserComment, sorted: seq<UserComment>): (r: seq<UserComment>)
    ensures multiset(r) == multiset(sorted) + multiset{x}
    ensures NewestFirst(sorted) ==> NewestFirst(r)
  {
    if sorted == [] || x.comment.dateTime >= sorted[0].comment.dateTime then
      assert NewestFirst(sorted) ==> NewestFirst([x] + sorted) by {
        if NewestFirst(sorted) && sorted != [] {
          HeadBound(sorted);
          ConsNewestFirst(x, sorted);
        }
      }
      [x] + sorted
    else
      var rest := Insert(x, sorted[1..]);
      InsertStep(x, sorted, rest);
      [sorted[0]] + rest
  }

  /** The head of a newest-first list is at least as new as every entry. */
  lemma HeadBound(xs: seq<UserComment>)
    requires xs != [] && NewestFirst(xs)
    ensures forall y | y in multiset(xs) :: xs[0].comment.dateTime >= y.comment.dateTime
    ensures NewestFirst(xs[1..])
  {
    forall y | y in multiset(xs) ensures xs[0].comment.dateTime >= y.comment.dateTime {
      var k :| 0 <= k < |xs| && xs[k] == y;
    }
  }

  /** An entry at least as new as every entry of a newest-first list can go in front of it. */
  lemma ConsNewestFirst(h: UserComment, xs: seq<UserComment>)
    requires NewestFirst(xs)
    requires forall y | y in multiset(xs) :: h.comment.dateTime >= y.comment.dateTime
    ensures NewestFirst([h] + xs)
  {
    var r := [h] + xs;
    forall i, j | 0 <= i < j < |r| ensures r[i].comment.dateTime >= r[j].comment.dateTime {
      assert r[j] == xs[j - 1];
      if i == 0 {
        assert xs[j - 1] in multiset(xs);
      } else {
        assert r[i] == xs[i - 1];
      }
    }
  }

  /** The recursive case of Insert: the head stays in front of the rest with `x` inserted. */
  lemma InsertStep(x: UserComment, sorted: seq<UserComment>, rest: seq<UserComment>)
    requires sorted != [] && x.comment.dateTime < sorted[0].comment.dateTime
    requires multiset(rest) == multiset(sorted[1..]) + multiset{x}
    requires NewestFirst(sorted[1..]) ==> NewestFirst(rest)
    ensures multiset([sorted[0]] + rest) == multiset(sorted) + multiset{x}
    ensures NewestFirst(sorted) ==> NewestFirst([sorted[0]] + rest)
  {
    assert sorted == [sorted[0]] + sorted[1..];
    if NewestFirst(sorted) {
      HeadBound(sorted);
      ConsNewestFirst(sorted[0], rest);
    }
  }

  /** `.sort((a, b) => b.date_time - a.date_time)`: a stable sort, newest first. */
  function SortNewestFirst(xs: seq<UserComment>): (r: seq<UserComment>)
    ensures multiset(r) == multiset(xs)
    ensures NewestFirst(r)
  {
    if xs == [] then []
    else
      assert xs == [xs[0]] + xs[1..];
      Insert(xs[0], SortNewestFirst(xs[1..]))
  }

  /** collectUserComments: the user's comments over `photos || []`, each with its photo, newest first. */
  function Collect(photos: Option<seq<ClientPhoto>>, userId: string): seq<UserComment>
  {
    SortNewestFirst(Matching(ListOf(photos), userId))
  }

  /**
   * The collected list is newest first, holds exactly the matching
   * comments with their photos, and is a permutation of them.
   */
  lemma CollectSpec(photos: Option<seq<ClientPhoto>>, userId: string)
    ensures NewestFirst(Collect(photos, userId))
    ensures multiset(Collect(photos, userId)) == multiset(Matching(ListOf(photos), userId))
    ensures forall x :: x in Collect(photos, userId) <==>
      x.photo in ListOf(photos) && x.comment in CommentsOf(x.photo) && ByUser(x.comment, userId)
  {
    var m := Matching(ListOf(photos), userId);
    var r := Collect(photos, userId);
    assert forall x :: x in r <==> x in multiset(r);
    assert forall x :: x in m <==> x in multiset(m);
  }

  /** The strict count on the user list never exceeds the coerced count of one photo's comments here. */
  lemma {:induction false} StrictAtMostCoercedPhoto(cs: seq<ClientComment>, photo: ClientPhoto, userId: string)
    ensures UserSummaries.MatchCount(cs, userId) <= |FromPhoto(cs, photo, userId)|
  {
    if cs != [] {
      StrictAtMostCoercedPhoto(cs[1..], photo, userId);
      if StrictEqStr(CommentAuthor(cs[0]), userId) {
        StrictEqImpliesStringEq(CommentAuthor(cs[0]), userId);
      }
    }
  }

  /**
   * The comment count the user list shows (strict `===`) is at most the
   * number of comments this page collects (`String(...)` on both sides).
   */
  lemma {:induction false} StrictCountAtMostCollected(photos: seq<ClientPhoto>, userId: string)
    ensures UserSummaries.CommentTotal(photos, userId) <= |Matching(photos, userId)|
  {
    if photos != [] {
      StrictAtMostCoercedPhoto(CommentsOf(photos[0]), photos[0], userId);
      StrictCountAtMostCollected(photos[1..], userId);
    }
  }

  /** The two counts can differ: an author id stored as an object without `_id` matches only after coercion. */
  lemma CountsCanDiffer()
    ensures var c := ClientComment("c", Some("hi"), 0, Undefined, Obj(NoId));
      var p := ClientPhoto("p", "f.jpg", 0, Str("u"), Some([c]));
      && UserSummaries.CommentTotal([p], "[object Object]") == 0
      && |Matching([p], "[object Object]")| == 1
  {
    var c := ClientComment("c", Some("hi"), 0, Undefined, Obj(NoId));
    var p := ClientPhoto("p", "f.jpg", 0, Str("u"), Some([c]));
    assert CommentAuthor(c) == Obj(NoId);
    assert ByUser(c, "[object Object]");
    assert FromPhoto([c], p, "[object Object]") == [UserComment(c, p)];
  }
}
