/**
 * The comment controllers: `commentBlog` (insert a comment, then raise the
 * blog's `commentsCount`), `deleteComment` (comment 404, blog 404, owner
 * only, remove, then lower the count) and `getCommentsByBlog` (every comment
 * of the blog, newest first). `sanitize` is DOMPurify's, given as a
 * parameter; `failAt` names the awaited call that throws.
 */
module Comments {
  import opened Wrappers
  import opened Collections
  import opened Http
  import opened BlogModel
  import opened CommentModel
  import opened Store

  const NoBlogMessage: string := "Blog not found."
  const NoCommentMessage: string := "Comment not found."
  const CommentDeniedMessage: string := "Access denied. You are not authorized to delete this comment."

  /** The store after one blog's `commentsCount` has been set to `count`. */
  function WithCommentsCount(s: Snapshot, i: nat, count: int): Snapshot
    requires i < |s.blogs|
  {
    s.(blogs := s.blogs[i := s.blogs[i].(commentsCount := count)])
  }

  /** Appending a comment and raising its blog's count by one keeps every count in agreement. */
  lemma AddCommentKeepsCounts(s: Snapshot, i: nat, c: Comment)
    requires CommentCountsAgree(s) && DistinctBy(s.blogs, BlogId) && i < |s.blogs| && c.blogId == s.blogs[i].id
    ensures CommentCountsAgree(WithCommentsCount(s.(comments := s.comments + [c]), i, s.blogs[i].commentsCount + 1))
  {
    var t := WithCommentsCount(s.(comments := s.comments + [c]), i, s.blogs[i].commentsCount + 1);
    forall k | 0 <= k < |t.blogs| ensures t.blogs[k].commentsCount == |CommentsOf(t.comments, t.blogs[k].id)| {
      CommentsOfAppend(s.comments, c, s.blogs[k].id);
      if k != i {
        assert BlogId(s.blogs[k]) != BlogId(s.blogs[i]);
      }
    }
  }

  /** Removing a comment and lowering its blog's count by one keeps every count in agreement. */
  lemma RemoveCommentKeepsCounts(s: Snapshot, i: nat, j: nat)
    requires CommentCountsAgree(s) && DistinctBy(s.blogs, BlogId) && i < |s.blogs| && j < |s.comments|
    requires s.comments[j].blogId == s.blogs[i].id
    ensures CommentCountsAgree(WithCommentsCount(s.(comments := RemoveAt(s.comments, j)), i, s.blogs[i].commentsCount - 1))
  {
    var t := WithCommentsCount(s.(comments := RemoveAt(s.comments, j)), i, s.blogs[i].commentsCount - 1);
    forall k | 0 <= k < |t.blogs| ensures t.blogs[k].commentsCount == |CommentsOf(t.comments, t.blogs[k].id)| {
      CommentsOfRemoveAt(s.comments, j, s.blogs[k].id);
      if k != i {
        assert BlogId(s.blogs[k]) != BlogId(s.blogs[i]);
      }
    }
  }

  /** Setting a counter keeps ids, slugs and the like counts as they were. */
  lemma WithCommentsCountKeepsRest(s: Snapshot, i: nat, count: int)
    requires WellFormed(s) && LikeCountsAgree(s) && NoDuplicateLikes(s) && i < |s.blogs|
    ensures var t := WithCommentsCount(s, i, count);
      WellFormed(t) && LikeCountsAgree(t) && NoDuplicateLikes(t)
  {
    var b := s.blogs[i].(commentsCount := count);
    DistinctReplace(s.blogs, i, b, BlogId);
    DistinctReplace(s.blogs, i, b, BlogSlug);
    KeysBelowReplace(s.blogs, i, b, BlogId, s.nextId);
  }

  // -------------------------------------------------------------- commentBlog

  /**
   * `commentBlog` on a snapshot: `failAt` 1 makes the blog lookup throw, 2
   * the comment insert, 3 the save of the raised count.
   */
  function CommentBlogSpec(s: Snapshot, userId: Id, blogId: Id, content: string, sanitize: string -> string,
                           now: int, failAt: nat): (o: Outcome<Comment>)
    ensures failAt == 1 ==> o == Outcome(s, Failure(500, ServerError, ServerErrorMessageShort))
    ensures failAt != 1 && FindBlog(s, blogId).None? ==> o == Outcome(s, Failure(404, NotFound, NoBlogMessage))
    ensures o.reply.Failure? ==> o.reply.status == 404 || o.reply == Failure(500, ServerError, ServerErrorMessageShort)
  {
    if failAt == 1 then Outcome(s, Failure(500, ServerError, ServerErrorMessageShort))
    else match FindBlog(s, blogId)
      case None => Outcome(s, Failure(404, NotFound, NoBlogMessage))
      case Some(b) =>
        var w := CreateCommentSpec(s, blogId, userId, sanitize(content), now, failAt == 2);
        match w.result
        case None => Outcome(w.state, Failure(500, ServerError, ServerErrorMessageShort))
        case Some(c) =>
          var v := SetCommentsCountSpec(w.state, blogId, b.commentsCount + 1, failAt == 3);
          if v.result.None? then Outcome(v.state, Failure(500, ServerError, ServerErrorMessageShort))
          else Outcome(v.state, Success(201, c))
  }

  /**
   * A successful comment appends one comment with the path's blog id, the
   * requester as author and the sanitized content, and raises exactly that
   * blog's `commentsCount` by one; users, likes and tokens are untouched.
   */
  lemma CommentBlogSuccess(s: Snapshot, userId: Id, blogId: Id, content: string, sanitize: string -> string,
                           now: int, failAt: nat)
    requires CommentBlogSpec(s, userId, blogId, content, sanitize, now, failAt).reply.Success?
    ensures BlogIndex(s.blogs, blogId).Some?
    ensures var o := CommentBlogSpec(s, userId, blogId, content, sanitize, now, failAt);
      var i := BlogIndex(s.blogs, blogId).value;
      var c := Comment(s.nextId, blogId, userId, sanitize(content), now);
      && o.reply == Success(201, c)
      && o.state == WithCommentsCount(TakeId(s).(comments := s.comments + [c]), i, s.blogs[i].commentsCount + 1)
      && CommentConforms(Some(blogId), Some(userId), sanitize(content))
  {
  }

  /** As long as the count's save does not throw, commenting keeps the store consistent. */
  lemma CommentBlogKeepsConsistent(s: Snapshot, userId: Id, blogId: Id, content: string, sanitize: string -> string,
                                   now: int, failAt: nat)
    requires Consistent(s) && failAt != 3
    ensures Consistent(CommentBlogSpec(s, userId, blogId, content, sanitize, now, failAt).state)
  {
    var o := CommentBlogSpec(s, userId, blogId, content, sanitize, now, failAt);
    if failAt != 1 && FindBlog(s, blogId).Some? {
      var i := BlogIndex(s.blogs, blogId).value;
      var w := CreateCommentSpec(s, blogId, userId, sanitize(content), now, failAt == 2);
      TakeIdKeepsConsistent(s);
      if w.result.Some? {
        var c := w.result.value;
        var u := TakeId(s).(comments := s.comments + [c]);
        assert BlogId(s.blogs[i]) < s.nextId;
        DistinctAppend(s.comments, c, CommentId);
        KeysBelowAppend(s.comments, c, CommentId, u.nextId);
        KeysBelowAppend(s.comments, c, CommentBlogId, u.nextId);
        AddCommentKeepsCounts(TakeId(s), i, c);
        WithCommentsCountKeepsRest(u, i, s.blogs[i].commentsCount + 1);
      }
    }
  }

  /**
   * When the save of the raised count throws, the comment is already stored:
   * the reply is a 500, and that blog's `commentsCount` is one below its
   * number of comments.
   */
  lemma CommentBlogSaveFailureLagsCount(s: Snapshot, userId: Id, blogId: Id, content: string, sanitize: string -> string, now: int)
    requires Consistent(s) && FindBlog(s, blogId).Some?
    requires CommentConforms(Some(blogId), Some(userId), sanitize(content))
    ensures var o := CommentBlogSpec(s, userId, blogId, content, sanitize, now, 3);
      var b := FindBlog(s, blogId).value;
      && o.reply == Failure(500, ServerError, ServerErrorMessageShort)
      && |o.state.comments| == |s.comments| + 1
      && b in o.state.blogs
      && b.commentsCount + 1 == |CommentsOf(o.state.comments, blogId)|
  {
    var i := BlogIndex(s.blogs, blogId).value;
    var c := Comment(s.nextId, blogId, userId, sanitize(content), now);
    CommentsOfAppend(s.comments, c, blogId);
  }

  /** `commentBlog` on the store: the loaded counter is raised in place and saved. */
  method CommentBlog(db: Database, userId: Id, blogId: Id, content: string, sanitize: string -> string,
                     now: int, failAt: nat)
    returns (reply: Reply<Comment>)
    modifies db
    ensures var o := CommentBlogSpec(old(db.State()), userId, blogId, content, sanitize, now, failAt);
      db.State() == o.state && reply == o.reply
  {
    if failAt == 1 {
      return Failure(500, ServerError, ServerErrorMessageShort);
    }
    var blog := FindBlog(db.State(), blogId);
    if blog.None? {
      return Failure(404, NotFound, NoBlogMessage);
    }
    var commentsCount := blog.value.commentsCount;
    var cleanContent := sanitize(content);
    var created := db.CreateComment(blogId, userId, cleanContent, now, failAt == 2);
    if created.None? {
      return Failure(500, ServerError, ServerErrorMessageShort);
    }
    commentsCount := commentsCount + 1;
    var saved := db.SetCommentsCount(blogId, commentsCount, failAt == 3);
    if saved.None? {
      return Failure(500, ServerError, ServerErrorMessageShort);
    }
    reply := Success(201, created.value);
  }

  // ------------------------------------------------------------ deleteComment

  /**
   * `deleteComment` on a snapshot: `failAt` 1 makes the comment lookup
   * throw, 2 the blog lookup, 3 the `deleteOne`, 4 the save of the lowered
   * count. The checks come in order: the comment, its blog, then its
   * author; an admin gets no exception.
   */
  function DeleteCommentSpec(s: Snapshot, currentUserId: Id, commentId: Id, failAt: nat): (o: Outcome<()>)
    ensures failAt == 1 ==> o == Outcome(s, Failure(500, ServerError, ServerErrorMessageShort))
    ensures failAt != 1 && CommentIndex(s.comments, commentId).None? ==> o == Outcome(s, Failure(404, NotFound, NoCommentMessage))
    ensures (failAt != 1 && failAt != 2 && CommentIndex(s.comments, commentId).Some? &&
             FindBlog(s, s.comments[CommentIndex(s.comments, commentId).value].blogId).None?) ==>
      o == Outcome(s, Failure(404, NotFound, NoBlogMessage))
    ensures (failAt != 1 && failAt != 2 && CommentIndex(s.comments, commentId).Some? &&
             FindBlog(s, s.comments[CommentIndex(s.comments, commentId).value].blogId).Some? &&
             s.comments[CommentIndex(s.comments, commentId).value].userId != currentUserId) ==>
      o == Outcome(s, Failure(403, AuthorizationError, CommentDeniedMessage))
  {
    if failAt == 1 then Outcome(s, Failure(500, ServerError, ServerErrorMessageShort))
    else match CommentIndex(s.comments, commentId)
      case None => Outcome(s, Failure(404, NotFound, NoCommentMessage))
      case Some(j) =>
        var c := s.comments[j];
        if failAt == 2 then Outcome(s, Failure(500, ServerError, ServerErrorMessageShort))
        else match FindBlog(s, c.blogId)
          case None => Outcome(s, Failure(404, NotFound, NoBlogMessage))
          case Some(b) =>
            if c.userId != currentUserId then Outcome(s, Failure(403, AuthorizationError, CommentDeniedMessage))
            else
              var w := Store.DeleteCommentSpec(s, commentId, failAt == 3);
              if w.result.None? then Outcome(w.state, Failure(500, ServerError, ServerErrorMessageShort))
              else
                var v := SetCommentsCountSpec(w.state, c.blogId, b.commentsCount - 1, failAt == 4);
                if v.result.None? then Outcome(v.state, Failure(500, ServerError, ServerErrorMessageShort))
                else Outcome(v.state, Success(204, ()))
  }

  /**
   * A successful delete removes exactly that comment, which the requester
   * wrote, and lowers exactly its blog's `commentsCount` by one.
   */
  lemma DeleteCommentSuccess(s: Snapshot, currentUserId: Id, commentId: Id, failAt: nat)
    requires DeleteCommentSpec(s, currentUserId, commentId, failAt).reply.Success?
    ensures CommentIndex(s.comments, commentId).Some?
    ensures var j := CommentIndex(s.comments, commentId).value;
      BlogIndex(s.blogs, s.comments[j].blogId).Some?
    ensures var o := DeleteCommentSpec(s, currentUserId, commentId, failAt);
      var j := CommentIndex(s.comments, commentId).value;
      var i := BlogIndex(s.blogs, s.comments[j].blogId).value;
      && s.comments[j].userId == currentUserId
      && o.reply == Success(204, ())
      && o.state == WithCommentsCount(s.(comments := RemoveAt(s.comments, j)), i, s.blogs[i].commentsCount - 1)
  {
  }

  /** A requester who did not write the comment is refused even as an admin. */
  lemma DeleteCommentNoAdminOverride(s: Snapshot, currentUserId: Id, commentId: Id, failAt: nat)
    requires failAt != 1 && failAt != 2 && CommentIndex(s.comments, commentId).Some?
    requires var c := s.comments[CommentIndex(s.comments, commentId).value];
      FindBlog(s, c.blogId).Some? && c.userId != currentUserId
    ensures DeleteCommentSpec(s, currentUserId, commentId, failAt).reply.Failure?
    ensures DeleteCommentSpec(s, currentUserId, commentId, failAt).state == s
  {
  }

  /** As long as the count's save does not throw, deleting a comment keeps the store consistent. */
  lemma DeleteCommentKeepsConsistent(s: Snapshot, currentUserId: Id, commentId: Id, failAt: nat)
    requires Consistent(s) && failAt != 4
    ensures Consistent(DeleteCommentSpec(s, currentUserId, commentId, failAt).state)
  {
    var o := DeleteCommentSpec(s, currentUserId, commentId, failAt);
    if o.reply.Success? {
      DeleteCommentSuccess(s, currentUserId, commentId, failAt);
      var j := CommentIndex(s.comments, commentId).value;
      var i := BlogIndex(s.blogs, s.comments[j].blogId).value;
      var u := s.(comments := RemoveAt(s.comments, j));
      DistinctRemoveAt(s.comments, j, CommentId);
      KeysBelowRemoveAt(s.comments, j, CommentId, s.nextId);
      KeysBelowRemoveAt(s.comments, j, CommentBlogId, s.nextId);
      RemoveCommentKeepsCounts(s, i, j);
      WithCommentsCountKeepsRest(u, i, s.blogs[i].commentsCount - 1);
    } else {
      assert o.state == s;
    }
  }

  /**
   * When the save of the lowered count throws, the comment is already gone:
   * the reply is a 500, and that blog's `commentsCount` is one above its
   * number of comments.
   */
  lemma DeleteCommentSaveFailureLagsCount(s: Snapshot, currentUserId: Id, commentId: Id)
    requires Consistent(s) && CommentIndex(s.comments, commentId).Some?
    requires var c := s.comments[CommentIndex(s.comments, commentId).value];
      FindBlog(s, c.blogId).Some? && c.userId == currentUserId
    ensures var c := s.comments[CommentIndex(s.comments, commentId).value];
      var o := DeleteCommentSpec(s, currentUserId, commentId, 4);
      var b := FindBlog(s, c.blogId).value;
      && o.reply == Failure(500, ServerError, ServerErrorMessageShort)
      && |o.state.comments| + 1 == |s.comments|
      && b in o.state.blogs
      && b.commentsCount == |CommentsOf(o.state.comments, c.blogId)| + 1
  {
    var j := CommentIndex(s.comments, commentId).value;
    var c := s.comments[j];
    var i := BlogIndex(s.blogs, c.blogId).value;
    assert s.blogs[i].commentsCount == |CommentsOf(s.comments, s.blogs[i].id)|;
    CommentsOfRemoveAt(s.comments, j, c.blogId);
  }

  /** `deleteComment` on the store: the loaded counter is lowered in place and saved. */
  method DeleteComment(db: Database, currentUserId: Id, commentId: Id, failAt: nat)
    returns (reply: Reply<()>)
    modifies db
    ensures var o := DeleteCommentSpec(old(db.State()), currentUserId, commentId, failAt);
      db.State() == o.state && reply == o.reply
  {
    if failAt == 1 {
      return Failure(500, ServerError, ServerErrorMessageShort);
    }
    var j := CommentIndex(db.comments, commentId);
    if j.None? {
      return Failure(404, NotFound, NoCommentMessage);
    }
    var comment := db.comments[j.value];
    if failAt == 2 {
      return Failure(500, ServerError, ServerErrorMessageShort);
    }
    var blog := FindBlog(db.State(), comment.blogId);
    if blog.None? {
      return Failure(404, NotFound, NoBlogMessage);
    }
    if comment.userId != currentUserId {
      return Failure(403, AuthorizationError, CommentDeniedMessage);
    }
    var done := db.DeleteComment(commentId, failAt == 3);
    if done.None? {
      return Failure(500, ServerError, ServerErrorMessageShort);
    }
    var commentsCount := blog.value.commentsCount;
    commentsCount := commentsCount - 1;
    var saved := db.SetCommentsCount(comment.blogId, commentsCount, failAt == 4);
    if saved.None? {
      return Failure(500, ServerError, ServerErrorMessageShort);
    }
    reply := Success(204, ());
  }

  /** Commenting and then deleting that comment gives back the original comments and counts. */
  lemma CommentThenDeleteRestores(s: Snapshot, userId: Id, blogId: Id, content: string, sanitize: string -> string, now: int)
    requires WellFormed(s)
    requires CommentBlogSpec(s, userId, blogId, content, sanitize, now, 0).reply.Success?
    ensures var t := CommentBlogSpec(s, userId, blogId, content, sanitize, now, 0).state;
      var d := DeleteCommentSpec(t, userId, s.nextId, 0);
      d.reply == Success(204, ()) && d.state == TakeId(s)
  {
    CommentBlogSuccess(s, userId, blogId, content, sanitize, now, 0);
    var i := BlogIndex(s.blogs, blogId).value;
    var c := Comment(s.nextId, blogId, userId, sanitize(content), now);
    var t := CommentBlogSpec(s, userId, blogId, content, sanitize, now, 0).state;
    assert t.comments == s.comments + [c];
    DistinctAppend(s.comments, c, CommentId);
    CommentIndexUnique(t.comments, |s.comments|);
    assert RemoveAt(t.comments, |s.comments|) == s.comments;
    DistinctReplace(s.blogs, i, t.blogs[i], BlogId);
    BlogIndexUnique(t.blogs, i);
    assert t.blogs[i := t.blogs[i].(commentsCount := s.blogs[i].commentsCount)] == s.blogs;
  }

  // -------------------------------------------------------- getCommentsByBlog

  function CreatedAt(c: Comment): int { c.createdAt }

  /**
   * `getCommentsByBlog`: a missing blog is a 404; otherwise every comment
   * of the blog, newest first, with no pagination. Nothing is written.
   */
  function GetCommentsByBlog(s: Snapshot, blogId: Id, fails: bool): (r: Reply<seq<Comment>>)
    ensures fails ==> r == Failure(500, ServerError, ServerErrorMessageShort)
    ensures !fails && FindBlog(s, blogId).None? ==> r == Failure(404, NotFound, NoBlogMessage)
    ensures r.Success? ==> r.status == 200
  {
    if fails then Failure(500, ServerError, ServerErrorMessageShort)
    else if FindBlog(s, blogId).None? then Failure(404, NotFound, NoBlogMessage)
    else Success(200, SortDesc(CommentsOf(s.comments, blogId), CreatedAt))
  }

  /**
   * The listed comments are exactly the blog's comments (as a multiset:
   * each one, once), every one has that blog id, and they are newest first.
   */
  lemma GetCommentsByBlogAll(s: Snapshot, blogId: Id)
    requires FindBlog(s, blogId).Some?
    ensures var r := GetCommentsByBlog(s, blogId, false);
      && r.Success?
      && multiset(r.body) == multiset(CommentsOf(s.comments, blogId))
      && (forall k :: 0 <= k < |s.comments| && s.comments[k].blogId == blogId ==> s.comments[k] in r.body)
      && (forall c :: c in r.body ==> c in s.comments && c.blogId == blogId)
      && SortedDesc(r.body, CreatedAt)
  {
    var cs := CommentsOf(s.comments, blogId);
    forall c | c in cs ensures c in SortDesc(cs, CreatedAt) {
      SortDescMembers(cs, CreatedAt, c);
    }
    forall c | c in SortDesc(cs, CreatedAt) ensures c in cs {
      SortDescMembers(cs, CreatedAt, c);
    }
  }
}
