/**
 * The blog write controllers: `createBlog` (insert, the author is the
 * requester), `updateBlog` (404, then the permission check, then a
 * truthy-field update of the loaded document and a save) and `deleteBlog`
 * (404, then owner-or-admin, then the banner is destroyed on the upload
 * host and the blog removed). DOMPurify's `sanitize` and the slug generator
 * are parameters; `failAt` names the awaited call that throws.
 */
module Blogs {
  import opened Wrappers
  import opened Collections
  import opened Http
  import opened UserModel
  import opened BlogModel
  import opened Store

  const NoBlogMessage: string := "Blog not found."

  // ---------------------------------------------------------------- createBlog

  /** The document `Blog.create({ title, content: clean, banner, status, author: userId })` saves. */
  function NewBlogDraft(id: Id, userId: Id, title: string, cleanContent: string, banner: Option<Banner>,
                        status: Option<string>, now: int): BlogDraft {
    BlogDraft(id, userId, now, true, BlogFields(title, "", cleanContent, banner, status.GetOr(DefaultStatus)), 0, 0, 0)
  }

  /**
   * `createBlog` on a snapshot: the body's fields with the content
   * sanitized, `author` the requester; `fails` makes the insert throw.
   */
  function CreateBlogSpec(s: Snapshot, userId: Id, title: string, content: string, banner: Option<Banner>,
                          status: Option<string>, sanitize: string -> string, genSlug: string -> string,
                          now: int, fails: bool): (o: Outcome<Blog>)
    ensures o.reply.Failure? ==> o.reply == Failure(500, ServerError, ServerErrorMessageShort) && o.state == TakeId(s)
  {
    var w := SaveBlogSpec(TakeId(s), NewBlogDraft(s.nextId, userId, title, sanitize(content), banner, status, now), genSlug, fails);
    match w.result
    case None => Outcome(w.state, Failure(500, ServerError, ServerErrorMessageShort))
    case Some(b) => Outcome(w.state, Success(201, b))
  }

  /**
   * A created blog is appended with the fresh id, `author` the requester
   * (never a body field), the sanitized content, the title, banner and
   * status as given (`draft` when omitted), a slug derived from the title
   * and all counters 0; no other collection changes.
   */
  lemma CreateBlogSuccess(s: Snapshot, userId: Id, title: string, content: string, banner: Option<Banner>,
                          status: Option<string>, sanitize: string -> string, genSlug: string -> string,
                          now: int, fails: bool)
    requires CreateBlogSpec(s, userId, title, content, banner, status, sanitize, genSlug, now, fails).reply.Success?
    ensures var o := CreateBlogSpec(s, userId, title, content, banner, status, sanitize, genSlug, now, fails);
      var b := o.reply.body;
      && !fails && o.reply.status == 201
      && o.state.blogs == s.blogs + [b]
      && b.id == s.nextId && b.author == userId && b.createdAt == now
      && b.title == title && b.content == sanitize(content) && banner == Some(b.banner)
      && StatusName(b.status) == status.GetOr(DefaultStatus) && (status.None? ==> b.status == Draft)
      && b.slug == genSlug(title)
      && b.viewsCount == 0 && b.likesCount == 0 && b.commentsCount == 0
      && o.state.users == s.users && o.state.comments == s.comments && o.state.likes == s.likes && o.state.tokens == s.tokens
  {
    var d := NewBlogDraft(s.nextId, userId, title, sanitize(content), banner, status, now);
    var h := DraftAfterHook(d, genSlug);
    assert h.fields.title == title && title != "";
  }

  lemma CreateBlogKeepsConsistent(s: Snapshot, userId: Id, title: string, content: string, banner: Option<Banner>,
                                  status: Option<string>, sanitize: string -> string, genSlug: string -> string,
                                  now: int, fails: bool)
    requires Consistent(s)
    ensures Consistent(CreateBlogSpec(s, userId, title, content, banner, status, sanitize, genSlug, now, fails).state)
  {
    var s1 := TakeId(s);
    TakeIdKeepsConsistent(s);
    FreshIdUnreferenced(s, s.nextId);
    SaveBlogKeepsConsistent(s1, NewBlogDraft(s.nextId, userId, title, sanitize(content), banner, status, now), genSlug, fails);
  }

  method CreateBlog(db: Database, userId: Id, title: string, content: string, banner: Option<Banner>,
                    status: Option<string>, sanitize: string -> string, genSlug: string -> string,
                    now: int, fails: bool)
    returns (reply: Reply<Blog>)
    modifies db
    ensures var o := CreateBlogSpec(old(db.State()), userId, title, content, banner, status, sanitize, genSlug, now, fails);
      db.State() == o.state && reply == o.reply
  {
    var cleanContent := sanitize(content);
    var id := db.NewId();
    var blog := new BlogDocument.Create(id, title, cleanContent, banner, status, userId, now);
    var saved := db.SaveBlog(blog, genSlug, fails);
    if saved.None? {
      return Failure(500, ServerError, ServerErrorMessageShort);
    }
    reply := Success(201, saved.value);
  }

  // ---------------------------------------------------------------- updateBlog

  /**
   * The permission check as written: `blog.author !== userId` compares the
   * stored `ObjectId` with the requester's `ObjectId` by reference; they are
   * never the same object, so the comparison always holds and the check
   * reduces to the role being admin.
   */
  predicate UpdatePermittedAsWritten(role: Option<Role>, author: Id, userId: Id) {
    var referenceDiffers := true;
    !(referenceDiffers && role != Some(Admin))
  }

  /** The evidently intended check, the one `deleteBlog` makes: the author or an admin. */
  predicate UpdatePermitted(role: Option<Role>, author: Id, userId: Id) {
    author == userId || role == Some(Admin)
  }

  /** As written, an author who is not an admin is refused an update of their own blog. */
  lemma UpdateAsWrittenRefusesAuthor()
    ensures !UpdatePermittedAsWritten(Some(Seller), 7, 7) && UpdatePermitted(Some(Seller), 7, 7)
  {
  }

  /**
   * The two checks differ only for a non-admin author; the route lets only
   * admins through, and for an admin both permit.
   */
  lemma UpdatePermissionDifference(role: Option<Role>, author: Id, userId: Id)
    ensures UpdatePermittedAsWritten(role, author, userId) ==> UpdatePermitted(role, author, userId)
    ensures UpdatePermitted(role, author, userId) && !UpdatePermittedAsWritten(role, author, userId) <==>
      author == userId && role != Some(Admin)
  {
  }

  /** The loaded document after `if (title) blog.title = title` and the like: only truthy fields are assigned. */
  function UpdatedDraft(b: Blog, title: Option<string>, content: Option<string>, banner: Option<Banner>,
                        status: Option<string>, sanitize: string -> string): BlogDraft {
    var f := BlogFields(
      if Truthy(title) then title.value else b.title,
      b.slug,
      if Truthy(content) then sanitize(content.value) else b.content,
      if banner.Some? then banner else Some(b.banner),
      if Truthy(status) then status.value else StatusName(b.status));
    BlogDraft(b.id, b.author, b.createdAt, false, f, b.viewsCount, b.likesCount, b.commentsCount)
  }

  /**
   * `updateBlog` on a snapshot: `failAt` 1 makes the user lookup throw, 2
   * the blog lookup, 3 the save. Every refusal and every failure leaves the
   * store as it was; a missing blog is reported before any permission is
   * considered. The permission is the check as written, so only an admin
   * gets past it, the blog's own author included.
   */
  function UpdateBlogSpec(s: Snapshot, userId: Id, blogId: Id, title: Option<string>, content: Option<string>,
                          banner: Option<Banner>, status: Option<string>, sanitize: string -> string,
                          genSlug: string -> string, failAt: nat): (o: Outcome<Blog>)
    ensures o.reply.Failure? ==> o.state == s
    ensures failAt == 1 || failAt == 2 ==> o.reply == Failure(500, ServerError, ServerErrorMessageShort)
    ensures failAt != 1 && failAt != 2 && FindBlog(s, blogId).None? ==> o.reply == Failure(404, NotFound, NoBlogMessage)
    ensures (failAt != 1 && failAt != 2 && FindBlog(s, blogId).Some? && RoleOf(s, userId) != Some(Admin)) ==>
      o.reply == Failure(403, AuthorizationError, AccessDeniedMessage)
    ensures o.reply.Success? ==> o.reply.status == 200 && failAt != 3
  {
    if failAt == 1 || failAt == 2 then Outcome(s, Failure(500, ServerError, ServerErrorMessageShort))
    else match FindBlog(s, blogId)
      case None => Outcome(s, Failure(404, NotFound, NoBlogMessage))
      case Some(b) =>
        if !UpdatePermittedAsWritten(RoleOf(s, userId), b.author, userId) then
          Outcome(s, Failure(403, AuthorizationError, AccessDeniedMessage))
        else
          var w := SaveBlogSpec(s, UpdatedDraft(b, title, content, banner, status, sanitize), genSlug, failAt == 3);
          match w.result
          case None => Outcome(w.state, Failure(500, ServerError, ServerErrorMessageShort))
          case Some(saved) => Outcome(w.state, Success(200, saved))
  }

  /**
   * A successful update was made by an admin and replaces the blog in
   * place: each of title, content
   * (sanitized), banner and status is the request's value when that is
   * truthy and the stored one otherwise; id, author, slug, creation time and
   * counters are kept; no other blog and no other collection changes.
   */
  lemma {:induction false} UpdateBlogSuccess(s: Snapshot, userId: Id, blogId: Id, title: Option<string>, content: Option<string>,
                                             banner: Option<Banner>, status: Option<string>, sanitize: string -> string,
                                             genSlug: string -> string, failAt: nat)
    requires UpdateBlogSpec(s, userId, blogId, title, content, banner, status, sanitize, genSlug, failAt).reply.Success?
    ensures BlogIndex(s.blogs, blogId).Some?
    ensures var o := UpdateBlogSpec(s, userId, blogId, title, content, banner, status, sanitize, genSlug, failAt);
      var i := BlogIndex(s.blogs, blogId).value;
      var b := s.blogs[i];
      var b' := o.reply.body;
      && RoleOf(s, userId) == Some(Admin)
      && o.state == s.(blogs := s.blogs[i := b'])
      && b'.title == (if Truthy(title) then title.value else b.title)
      && b'.content == (if Truthy(content) then sanitize(content.value) else b.content)
      && b'.banner == (if banner.Some? then banner.value else b.banner)
      && StatusName(b'.status) == (if Truthy(status) then status.value else StatusName(b.status))
      && (!Truthy(status) ==> b'.status == b.status)
      && b'.id == b.id && b'.author == b.author && b'.createdAt == b.createdAt
      && (b.slug != "" ==> b'.slug == b.slug)
      && b'.viewsCount == b.viewsCount && b'.likesCount == b.likesCount && b'.commentsCount == b.commentsCount
  {
    var b := FindBlog(s, blogId).value;
    var d := UpdatedDraft(b, title, content, banner, status, sanitize);
    var w := SaveBlogSpec(s, d, genSlug, failAt == 3);
    assert w.result.Some?;
    if !Truthy(status) {
      assert ParseStatus(StatusName(b.status)) == Some(b.status);
    }
  }

  lemma UpdateBlogKeepsConsistent(s: Snapshot, userId: Id, blogId: Id, title: Option<string>, content: Option<string>,
                                  banner: Option<Banner>, status: Option<string>, sanitize: string -> string,
                                  genSlug: string -> string, failAt: nat)
    requires Consistent(s)
    ensures Consistent(UpdateBlogSpec(s, userId, blogId, title, content, banner, status, sanitize, genSlug, failAt).state)
  {
    if failAt != 1 && failAt != 2 && FindBlog(s, blogId).Some? {
      var b := FindBlog(s, blogId).value;
      SaveBlogKeepsConsistent(s, UpdatedDraft(b, title, content, banner, status, sanitize), genSlug, failAt == 3);
    }
  }

  /** The assignments `if (title) blog.title = title` and so on, on the loaded document. */
  method AssignTruthy(blog: BlogDocument, b: Blog, title: Option<string>, content: Option<string>,
                      banner: Option<Banner>, status: Option<string>, sanitize: string -> string)
    requires blog.Draft() == BlogDraft(b.id, b.author, b.createdAt, false, BlogFieldsOf(b), b.viewsCount, b.likesCount, b.commentsCount)
    modifies blog
    ensures blog.Draft() == UpdatedDraft(b, title, content, banner, status, sanitize)
  {
    if Truthy(title) {
      blog.title := title.value;
    }
    if Truthy(content) {
      blog.content := sanitize(content.value);
    }
    if banner.Some? {
      blog.banner := banner;
    }
    if Truthy(status) {
      blog.status := status.value;
    }
  }

  /** `updateBlog` on the store, assigning to the loaded document field by field. */
  method UpdateBlog(db: Database, userId: Id, blogId: Id, title: Option<string>, content: Option<string>,
                    banner: Option<Banner>, status: Option<string>, sanitize: string -> string,
                    genSlug: string -> string, failAt: nat)
    returns (reply: Reply<Blog>)
    modifies db
    ensures var o := UpdateBlogSpec(old(db.State()), userId, blogId, title, content, banner, status, sanitize, genSlug, failAt);
      db.State() == o.state && reply == o.reply
  {
    if failAt == 1 || failAt == 2 {
      return Failure(500, ServerError, ServerErrorMessageShort);
    }
    var role := RoleOf(db.State(), userId);
    var found := FindBlog(db.State(), blogId);
    if found.None? {
      return Failure(404, NotFound, NoBlogMessage);
    }
    var blog := new BlogDocument.Load(found.value);
    if !UpdatePermittedAsWritten(role, blog.author, userId) {
      return Failure(403, AuthorizationError, AccessDeniedMessage);
    }
    AssignTruthy(blog, found.value, title, content, banner, status, sanitize);
    var saved := db.SaveBlog(blog, genSlug, failAt == 3);
    if saved.None? {
      return Failure(500, ServerError, ServerErrorMessageShort);
    }
    reply := Success(200, saved.value);
  }

  // ---------------------------------------------------------------- deleteBlog

  /** The check `deleteBlog` makes: `blog.author.equals(userId)` compares ids by value, or the requester is an admin. */
  predicate DeletePermitted(role: Option<Role>, author: Id, userId: Id) {
    author == userId || role == Some(Admin)
  }

  /**
   * `deleteBlog` on a snapshot: `failAt` 1 makes the user lookup throw, 2
   * the blog lookup, 3 the banner destruction on the upload host, 4 the
   * `deleteOne`. Nothing is destroyed or removed before both checks pass.
   */
  function DeleteBlogSpec(s: Snapshot, userId: Id, blogId: Id, failAt: nat): (o: Deletion)
    ensures failAt == 1 || failAt == 2 ==> o == Deletion(s, Failure(500, ServerError, ServerErrorMessageShort), [])
    ensures failAt != 1 && failAt != 2 && FindBlog(s, blogId).None? ==> o == Deletion(s, Failure(404, NotFound, NoBlogMessage), [])
    ensures (failAt != 1 && failAt != 2 && FindBlog(s, blogId).Some? &&
             !DeletePermitted(RoleOf(s, userId), FindBlog(s, blogId).value.author, userId)) ==>
      o == Deletion(s, Failure(403, AuthorizationError, AccessDeniedMessage), [])
    ensures o.reply.Failure? ==> o.state == s
  {
    if failAt == 1 || failAt == 2 then Deletion(s, Failure(500, ServerError, ServerErrorMessageShort), [])
    else match FindBlog(s, blogId)
      case None => Deletion(s, Failure(404, NotFound, NoBlogMessage), [])
      case Some(b) =>
        if !DeletePermitted(RoleOf(s, userId), b.author, userId) then
          Deletion(s, Failure(403, AuthorizationError, AccessDeniedMessage), [])
        else if failAt == 3 then Deletion(s, Failure(500, ServerError, ServerErrorMessageShort), [])
        else
          var w := Store.DeleteBlogSpec(s, blogId, failAt == 4);
          if w.result.None? then Deletion(w.state, Failure(500, ServerError, ServerErrorMessageShort), [b.banner.publicId])
          else Deletion(w.state, Success(204, ()), [b.banner.publicId])
  }

  /**
   * A successful delete removes exactly that blog, after destroying its
   * banner image; the requester was its author or an admin; the blog's
   * comments and likes, and every other collection, are left as they were.
   */
  lemma DeleteBlogSuccess(s: Snapshot, userId: Id, blogId: Id, failAt: nat)
    requires DeleteBlogSpec(s, userId, blogId, failAt).reply.Success?
    ensures BlogIndex(s.blogs, blogId).Some?
    ensures var o := DeleteBlogSpec(s, userId, blogId, failAt);
      var i := BlogIndex(s.blogs, blogId).value;
      && DeletePermitted(RoleOf(s, userId), s.blogs[i].author, userId)
      && o.reply == Success(204, ())
      && o.destroyed == [s.blogs[i].banner.publicId]
      && o.state == s.(blogs := RemoveAt(s.blogs, i))
      && CommentsOf(o.state.comments, blogId) == CommentsOf(s.comments, blogId)
  {
  }

  /** When `deleteOne` throws after the banner was destroyed, the blog stays but has lost its image on the host. */
  lemma DeleteBlogLateFailure(s: Snapshot, userId: Id, blogId: Id)
    requires FindBlog(s, blogId).Some? && DeletePermitted(RoleOf(s, userId), FindBlog(s, blogId).value.author, userId)
    ensures var o := DeleteBlogSpec(s, userId, blogId, 4);
      o.reply == Failure(500, ServerError, ServerErrorMessageShort) && o.state == s
      && o.destroyed == [FindBlog(s, blogId).value.banner.publicId]
  {
  }

  /** Removing a blog keeps the store consistent: ids and slugs stay unique and every remaining blog keeps its counts. */
  lemma RemoveBlogKeepsConsistent(s: Snapshot, i: nat)
    requires Consistent(s) && i < |s.blogs|
    ensures Consistent(s.(blogs := RemoveAt(s.blogs, i)))
  {
    var t := s.(blogs := RemoveAt(s.blogs, i));
    DistinctRemoveAt(s.blogs, i, BlogId);
    DistinctRemoveAt(s.blogs, i, BlogSlug);
    KeysBelowRemoveAt(s.blogs, i, BlogId, s.nextId);
    forall k | 0 <= k < |t.blogs|
      ensures t.blogs[k].commentsCount == |CommentsOf(t.comments, t.blogs[k].id)|
      ensures t.blogs[k].likesCount == |LikesOf(t.likes, t.blogs[k].id)|
    {
      var k' := if k < i then k else k + 1;
      assert t.blogs[k] == s.blogs[k'];
    }
  }

  lemma DeleteBlogKeepsConsistent(s: Snapshot, userId: Id, blogId: Id, failAt: nat)
    requires Consistent(s)
    ensures Consistent(DeleteBlogSpec(s, userId, blogId, failAt).state)
  {
    var o := DeleteBlogSpec(s, userId, blogId, failAt);
    if o.state != s {
      RemoveBlogKeepsConsistent(s, BlogIndex(s.blogs, blogId).value);
    }
  }

  /**
   * `deleteBlog` on the store. `cloudinary.uploader.destroy` is not called
   * here: `destroyed` lists the public ids handed to it, and `failAt` 3 is
   * that call throwing.
   */
  method DeleteBlog(db: Database, userId: Id, blogId: Id, failAt: nat)
    returns (reply: Reply<()>, destroyed: seq<string>)
    modifies db
    ensures var o := DeleteBlogSpec(old(db.State()), userId, blogId, failAt);
      db.State() == o.state && reply == o.reply && destroyed == o.destroyed
  {
    destroyed := [];
    if failAt == 1 || failAt == 2 {
      return Failure(500, ServerError, ServerErrorMessageShort), destroyed;
    }
    var role := RoleOf(db.State(), userId);
    var blog := FindBlog(db.State(), blogId);
    if blog.None? {
      return Failure(404, NotFound, NoBlogMessage), destroyed;
    }
    if !DeletePermitted(role, blog.value.author, userId) {
      return Failure(403, AuthorizationError, AccessDeniedMessage), destroyed;
    }
    if failAt == 3 {
      return Failure(500, ServerError, ServerErrorMessageShort), destroyed;
    }
    destroyed := destroyed + [blog.value.banner.publicId];
    var done := db.DeleteBlog(blogId, failAt == 4);
    if done.None? {
      return Failure(500, ServerError, ServerErrorMessageShort), destroyed;
    }
    reply := Success(204, ());
  }
}
