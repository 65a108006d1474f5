/**
 * The `likeBlog` controller: a missing blog is a 404, an existing like of
 * the same `(blogId, userId)` a 400; otherwise one like is inserted and the
 * blog's `likesCount` raised by one. The liker is the `userId` of the request
 * BODY, not the authenticated requester. `failAt` names the awaited call
 * that throws.
 */
module Likes {
  import opened Wrappers
  import opened Collections
  import opened Http
  import opened BlogModel
  import opened Store

  const NoBlogMessage: string := "Blog not found."
  const AlreadyLikedMessage: string := "You have already liked this blog."

  /** The store after one blog's `likesCount` has been set to `count`. */
  function WithLikesCount(s: Snapshot, i: nat, count: int): Snapshot
    requires i < |s.blogs|
  {
    s.(blogs := s.blogs[i := s.blogs[i].(likesCount := count)])
  }

  /**
   * `likeBlog` on a snapshot: `failAt` 1 makes the blog lookup throw, 2 the
   * like lookup, 3 the insert, 4 the save of the raised count. The reply
   * body is the new `likesCount`.
   */
  function LikeBlogSpec(s: Snapshot, blogId: Id, userId: Id, now: int, failAt: nat): (o: Outcome<int>)
    ensures failAt == 1 || (failAt == 2 && FindBlog(s, blogId).Some?) ==>
      o == Outcome(s, Failure(500, ServerError, ServerErrorMessageShort))
    ensures failAt != 1 && FindBlog(s, blogId).None? ==> o == Outcome(s, Failure(404, NotFound, NoBlogMessage))
    ensures (failAt != 1 && failAt != 2 && FindBlog(s, blogId).Some? && FindLike(s, blogId, userId).Some?) ==>
      o == Outcome(s, Failure(400, BadRequest, AlreadyLikedMessage))
  {
    if failAt == 1 then Outcome(s, Failure(500, ServerError, ServerErrorMessageShort))
    else match FindBlog(s, blogId)
      case None => Outcome(s, Failure(404, NotFound, NoBlogMessage))
      case Some(b) =>
        if failAt == 2 then Outcome(s, Failure(500, ServerError, ServerErrorMessageShort))
        else if FindLike(s, blogId, userId).Some? then Outcome(s, Failure(400, BadRequest, AlreadyLikedMessage))
        else
          var w := CreateLikeSpec(s, blogId, userId, now, failAt == 3);
          if w.result.None? then Outcome(w.state, Failure(500, ServerError, ServerErrorMessageShort))
          else
            var v := SetLikesCountSpec(w.state, blogId, b.likesCount + 1, failAt == 4);
            if v.result.None? then Outcome(v.state, Failure(500, ServerError, ServerErrorMessageShort))
            else Outcome(v.state, Success(200, b.likesCount + 1))
  }

  /**
   * A successful like was not there before; it appends exactly one like of
   * `(blogId, userId)`, raises exactly that blog's `likesCount` by one and
   * answers with the raised count.
   */
  lemma LikeBlogSuccess(s: Snapshot, blogId: Id, userId: Id, now: int, failAt: nat)
    requires LikeBlogSpec(s, blogId, userId, now, failAt).reply.Success?
    ensures BlogIndex(s.blogs, blogId).Some?
    ensures var o := LikeBlogSpec(s, blogId, userId, now, failAt);
      var i := BlogIndex(s.blogs, blogId).value;
      && FindLike(s, blogId, userId).None?
      && o.reply == Success(200, s.blogs[i].likesCount + 1)
      && o.state == WithLikesCount(TakeId(s).(likes := s.likes + [Like(s.nextId, blogId, userId, now)]), i, s.blogs[i].likesCount + 1)
  {
  }

  /** Appending a like and raising its blog's count by one keeps every like count in agreement. */
  lemma AddLikeKeepsCounts(s: Snapshot, i: nat, l: Like)
    requires LikeCountsAgree(s) && DistinctBy(s.blogs, BlogId) && i < |s.blogs| && l.blogId == s.blogs[i].id
    ensures LikeCountsAgree(WithLikesCount(s.(likes := s.likes + [l]), i, s.blogs[i].likesCount + 1))
  {
    var t := WithLikesCount(s.(likes := s.likes + [l]), i, s.blogs[i].likesCount + 1);
    forall k | 0 <= k < |t.blogs| ensures t.blogs[k].likesCount == |LikesOf(t.likes, t.blogs[k].id)| {
      LikesOfAppend(s.likes, l, s.blogs[k].id);
      if k != i {
        assert BlogId(s.blogs[k]) != BlogId(s.blogs[i]);
      }
    }
  }

  /**
   * As long as the count's save does not throw, liking keeps the store
   * consistent; in particular there is still at most one like per
   * `(blogId, userId)`.
   */
  lemma LikeBlogKeepsConsistent(s: Snapshot, blogId: Id, userId: Id, now: int, failAt: nat)
    requires Consistent(s) && failAt != 4
    ensures Consistent(LikeBlogSpec(s, blogId, userId, now, failAt).state)
  {
    var o := LikeBlogSpec(s, blogId, userId, now, failAt);
    if o.reply.Success? {
      LikeBlogSuccess(s, blogId, userId, now, failAt);
      TakeIdKeepsConsistent(s);
      var i := BlogIndex(s.blogs, blogId).value;
      var l := Like(s.nextId, blogId, userId, now);
      var t := TakeId(s);
      assert BlogId(s.blogs[i]) < s.nextId;
      DistinctAppend(s.likes, l, LikeId);
      KeysBelowAppend(s.likes, l, LikeId, t.nextId);
      KeysBelowAppend(s.likes, l, LikeBlogId, t.nextId);
      AddLikeKeepsCounts(t, i, l);
      var b := s.blogs[i].(likesCount := s.blogs[i].likesCount + 1);
      DistinctReplace(s.blogs, i, b, BlogId);
      DistinctReplace(s.blogs, i, b, BlogSlug);
      KeysBelowReplace(s.blogs, i, b, BlogId, t.nextId);
    } else if failAt != 1 && failAt != 2 && FindBlog(s, blogId).Some? && FindLike(s, blogId, userId).None? {
      TakeIdKeepsConsistent(s);
    }
  }

  /**
   * When the save of the raised count throws, the like is already stored:
   * the reply is a 500, and that blog's `likesCount` is one below its number
   * of likes.
   */
  lemma LikeBlogSaveFailureLagsCount(s: Snapshot, blogId: Id, userId: Id, now: int)
    requires Consistent(s) && FindBlog(s, blogId).Some? && FindLike(s, blogId, userId).None?
    ensures var o := LikeBlogSpec(s, blogId, userId, now, 4);
      var b := FindBlog(s, blogId).value;
      && o.reply == Failure(500, ServerError, ServerErrorMessageShort)
      && |o.state.likes| == |s.likes| + 1
      && b in o.state.blogs
      && b.likesCount + 1 == |LikesOf(o.state.likes, blogId)|
  {
    var i := BlogIndex(s.blogs, blogId).value;
    assert s.blogs[i].likesCount == |LikesOf(s.likes, s.blogs[i].id)|;
    LikesOfAppend(s.likes, Like(s.nextId, blogId, userId, now), blogId);
  }

  /** A duplicate like is refused with a 400 and changes nothing, its blog's count included. */
  lemma LikeBlogDuplicate(s: Snapshot, blogId: Id, userId: Id, now: int, failAt: nat)
    requires failAt != 1 && failAt != 2 && FindBlog(s, blogId).Some? && FindLike(s, blogId, userId).Some?
    ensures LikeBlogSpec(s, blogId, userId, now, failAt) == Outcome(s, Failure(400, BadRequest, AlreadyLikedMessage))
  {
  }

  /** Liking the same blog twice as the same user: the second like is refused and the count stays raised by one. */
  lemma LikeTwiceRefused(s: Snapshot, blogId: Id, userId: Id, now: int, later: int)
    requires LikeBlogSpec(s, blogId, userId, now, 0).reply.Success?
    ensures var t := LikeBlogSpec(s, blogId, userId, now, 0).state;
      LikeBlogSpec(t, blogId, userId, later, 0) == Outcome(t, Failure(400, BadRequest, AlreadyLikedMessage))
  {
    LikeBlogSuccess(s, blogId, userId, now, 0);
    var i := BlogIndex(s.blogs, blogId).value;
    var t := LikeBlogSpec(s, blogId, userId, now, 0).state;
    assert t.blogs[i].id == blogId;
    assert t.likes[|s.likes|] == Like(s.nextId, blogId, userId, now);
  }

  /** `likeBlog` on the store: the loaded counter is raised in place and saved. */
  method LikeBlog(db: Database, blogId: Id, userId: Id, now: int, failAt: nat)
    returns (reply: Reply<int>)
    modifies db
    ensures var o := LikeBlogSpec(old(db.State()), blogId, userId, now, failAt);
      db.State() == o.state && reply == o.reply
  {
    if failAt == 1 {
      return Failure(500, ServerError, ServerErrorMessageShort);
    }
    var blog := FindBlog(db.State(), blogId);
    if blog.None? {
      return Failure(404, NotFound, NoBlogMessage);
    }
    if failAt == 2 {
      return Failure(500, ServerError, ServerErrorMessageShort);
    }
    var existingLike := FindLike(db.State(), blogId, userId);
    if existingLike.Some? {
      return Failure(400, BadRequest, AlreadyLikedMessage);
    }
    var created := db.CreateLike(blogId, userId, now, failAt == 3);
    if created.None? {
      return Failure(500, ServerError, ServerErrorMessageShort);
    }
    var likesCount := blog.value.likesCount;
    likesCount := likesCount + 1;
    var saved := db.SetLikesCount(blogId, likesCount, failAt == 4);
    if saved.None? {
      return Failure(500, ServerError, ServerErrorMessageShort);
    }
    reply := Success(200, likesCount);
  }
}
