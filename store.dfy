/**
 * The document store the controllers talk to: five collections in insertion
 * order (users, blogs, comments, likes, refresh tokens), the queries they
 * issue, and the writes `create`, `save`, `deleteOne` and `deleteMany`
 * perform, as functions on a snapshot of the store. The `Database` class
 * holds the collections the controllers change in place; each of its methods
 * is proved to leave the state its snapshot function describes.
 *
 * Every write takes a `fails` flag: the store may throw at that operation
 * (lost connection, driver error), and then it writes nothing.
 */
module Store {
  import opened Wrappers
  import opened Collections
  import opened UserModel
  import opened BlogModel
  import opened CommentModel
  import opened Http

  /** A like of a blog by a user (the `Like` model; its `commentId` path is never set by these controllers). */
  datatype Like = Like(id: Id, blogId: Id, userId: Id, createdAt: int)

  /** A stored refresh token (the `Token` model). */
  datatype TokenRecord = TokenRecord(id: Id, token: string, userId: Id)

  datatype Snapshot = Snapshot(
    users: seq<User>,
    blogs: seq<Blog>,
    comments: seq<Comment>,
    likes: seq<Like>,
    tokens: seq<TokenRecord>,
    nextId: nat)

  /** What a controller leaves: the store after it, and its reply. */
  datatype Outcome<B> = Outcome(state: Snapshot, reply: Reply<B>)

  /** What a delete controller leaves: the store, the reply, and the public ids of the banner images it destroyed on the upload host. */
  datatype Deletion = Deletion(state: Snapshot, reply: Reply<()>, destroyed: seq<string>)

  /** What a write leaves: the new state, and the stored document or `None` when it threw. */
  datatype Written<X> = Written(state: Snapshot, result: Option<X>)

  function UserId(u: User): Id { u.id }
  function Username(u: User): string { u.username }
  function UserEmail(u: User): string { u.email }
  function BlogId(b: Blog): Id { b.id }
  function BlogSlug(b: Blog): string { b.slug }
  function CommentId(c: Comment): Id { c.id }
  function CommentBlogId(c: Comment): Id { c.blogId }
  function LikeId(l: Like): Id { l.id }
  function LikeBlogId(l: Like): Id { l.blogId }
  function TokenId(t: TokenRecord): Id { t.id }

  /**
   * Every `_id` is unique in its collection and below `nextId` (so `nextId`
   * is fresh), the unique indexes hold (username, email and slug), and
   * every comment and like refers to a blog id already issued.
   */
  ghost predicate WellFormed(s: Snapshot) {
    && DistinctBy(s.users, UserId) && KeysBelow(s.users, UserId, s.nextId)
    && DistinctBy(s.users, Username) && DistinctBy(s.users, UserEmail)
    && DistinctBy(s.blogs, BlogId) && KeysBelow(s.blogs, BlogId, s.nextId)
    && DistinctBy(s.blogs, BlogSlug)
    && DistinctBy(s.comments, CommentId) && KeysBelow(s.comments, CommentId, s.nextId)
    && KeysBelow(s.comments, CommentBlogId, s.nextId)
    && DistinctBy(s.likes, LikeId) && KeysBelow(s.likes, LikeId, s.nextId)
    && KeysBelow(s.likes, LikeBlogId, s.nextId)
    && DistinctBy(s.tokens, TokenId) && KeysBelow(s.tokens, TokenId, s.nextId)
  }

  // ---------------------------------------------------------------- queries

  /** `User.findById(id)`. */
  function UserIndex(users: seq<User>, id: Id): (r: Option<nat>)
    ensures r.Some? ==> r.value < |users| && users[r.value].id == id
    ensures r.None? ==> forall k :: 0 <= k < |users| ==> users[k].id != id
  {
    Find(users, (u: User) => u.id == id)
  }

  function FindUser(s: Snapshot, id: Id): (r: Option<User>)
    ensures r.Some? ==> r.value in s.users && r.value.id == id
    ensures r.None? ==> forall k :: 0 <= k < |s.users| ==> s.users[k].id != id
  {
    match UserIndex(s.users, id)
    case Some(i) => Some(s.users[i])
    case None => None
  }

  /** `User.findOne({ email })`: the first user with that email. */
  function FindUserByEmail(s: Snapshot, email: string): (r: Option<User>)
    ensures r.Some? ==> r.value in s.users && r.value.email == email
    ensures r.None? ==> forall k :: 0 <= k < |s.users| ==> s.users[k].email != email
  {
    match Find(s.users, (u: User) => u.email == email)
    case Some(i) => Some(s.users[i])
    case None => None
  }

  /** `User.exists({ email })`. */
  predicate EmailTaken(s: Snapshot, email: string) {
    FindUserByEmail(s, email).Some?
  }

  /** `User.exists({ username })`. */
  predicate UsernameTaken(s: Snapshot, username: string) {
    Find(s.users, (u: User) => u.username == username).Some?
  }

  /** The role `findById(userId).select('role')` reads, `None` for a missing user. */
  function RoleOf(s: Snapshot, id: Id): Option<Role> {
    match FindUser(s, id)
    case Some(u) => Some(u.role)
    case None => None
  }

  /** `Blog.findById(id)`. */
  function BlogIndex(blogs: seq<Blog>, id: Id): (r: Option<nat>)
    ensures r.Some? ==> r.value < |blogs| && blogs[r.value].id == id
    ensures r.None? ==> forall k :: 0 <= k < |blogs| ==> blogs[k].id != id
  {
    Find(blogs, (b: Blog) => b.id == id)
  }

  function FindBlog(s: Snapshot, id: Id): (r: Option<Blog>)
    ensures r.Some? ==> r.value in s.blogs && r.value.id == id
    ensures r.None? ==> forall k :: 0 <= k < |s.blogs| ==> s.blogs[k].id != id
  {
    match BlogIndex(s.blogs, id)
    case Some(i) => Some(s.blogs[i])
    case None => None
  }

  /** With unique ids, `findById` finds the blog at its own index. */
  lemma BlogIndexUnique(blogs: seq<Blog>, k: nat)
    requires DistinctBy(blogs, BlogId) && k < |blogs|
    ensures BlogIndex(blogs, blogs[k].id) == Some(k)
  {
    var r := BlogIndex(blogs, blogs[k].id);
    assert BlogId(blogs[r.value]) == BlogId(blogs[k]);
  }

  /** `Blog.findOne({ slug })`. */
  function FindBlogBySlug(s: Snapshot, slug: string): (r: Option<Blog>)
    ensures r.Some? ==> r.value in s.blogs && r.value.slug == slug
    ensures r.None? ==> forall k :: 0 <= k < |s.blogs| ==> s.blogs[k].slug != slug
  {
    match Find(s.blogs, (b: Blog) => b.slug == slug)
    case Some(i) => Some(s.blogs[i])
    case None => None
  }

  /** `Comment.findById(id)`. */
  function CommentIndex(comments: seq<Comment>, id: Id): (r: Option<nat>)
    ensures r.Some? ==> r.value < |comments| && comments[r.value].id == id
    ensures r.None? ==> forall k :: 0 <= k < |comments| ==> comments[k].id != id
  {
    Find(comments, (c: Comment) => c.id == id)
  }

  lemma CommentIndexUnique(comments: seq<Comment>, k: nat)
    requires DistinctBy(comments, CommentId) && k < |comments|
    ensures CommentIndex(comments, comments[k].id) == Some(k)
  {
    var r := CommentIndex(comments, comments[k].id);
    assert CommentId(comments[r.value]) == CommentId(comments[k]);
  }

  /** `Like.findOne({ blogId, userId })`. */
  function FindLike(s: Snapshot, blogId: Id, userId: Id): (r: Option<nat>)
    ensures r.Some? ==> r.value < |s.likes| && s.likes[r.value].blogId == blogId && s.likes[r.value].userId == userId
    ensures r.None? ==> forall k :: 0 <= k < |s.likes| ==> !(s.likes[k].blogId == blogId && s.likes[k].userId == userId)
  {
    Find(s.likes, (l: Like) => l.blogId == blogId && l.userId == userId)
  }

  /** `Token.exists({ token })`. */
  predicate TokenExists(s: Snapshot, token: string) {
    Find(s.tokens, (t: TokenRecord) => t.token == token).Some?
  }

  /** The comments of a blog, in store order. */
  function CommentsOf(comments: seq<Comment>, blogId: Id): (r: seq<Comment>)
    ensures forall k :: 0 <= k < |r| ==> r[k] in comments && r[k].blogId == blogId
    ensures forall k :: 0 <= k < |comments| && comments[k].blogId == blogId ==> comments[k] in r
  {
    Filter(comments, (c: Comment) => c.blogId == blogId)
  }

  /** The likes of a blog, in store order. */
  function LikesOf(likes: seq<Like>, blogId: Id): seq<Like> {
    Filter(likes, (l: Like) => l.blogId == blogId)
  }

  /** The blogs of an author, in store order (`Blog.find({ author })`). */
  function BlogsBy(blogs: seq<Blog>, author: Id): (r: seq<Blog>)
    ensures forall k :: 0 <= k < |r| ==> r[k] in blogs && r[k].author == author
    ensures forall k :: 0 <= k < |blogs| && blogs[k].author == author ==> blogs[k] in r
  {
    Filter(blogs, (b: Blog) => b.author == author)
  }

  /** The blogs NOT by an author: what `Blog.deleteMany({ author })` leaves. */
  function BlogsNotBy(blogs: seq<Blog>, author: Id): (r: seq<Blog>)
    ensures forall k :: 0 <= k < |r| ==> r[k] in blogs && r[k].author != author
    ensures forall k :: 0 <= k < |blogs| && blogs[k].author != author ==> blogs[k] in r
  {
    Filter(blogs, (b: Blog) => b.author != author)
  }

  // ------------------------------------------------------------- invariants

  /** Every blog's `commentsCount` is the number of its comments. */
  ghost predicate CommentCountsAgree(s: Snapshot) {
    forall i :: 0 <= i < |s.blogs| ==> s.blogs[i].commentsCount == |CommentsOf(s.comments, s.blogs[i].id)|
  }

  /** Every blog's `likesCount` is the number of its likes. */
  ghost predicate LikeCountsAgree(s: Snapshot) {
    forall i :: 0 <= i < |s.blogs| ==> s.blogs[i].likesCount == |LikesOf(s.likes, s.blogs[i].id)|
  }

  /** At most one like per `(blogId, userId)`. */
  ghost predicate NoDuplicateLikes(s: Snapshot) {
    forall i, j :: 0 <= i < j < |s.likes| ==> !(s.likes[i].blogId == s.likes[j].blogId && s.likes[i].userId == s.likes[j].userId)
  }

  /** The state sequential use of the API keeps. */
  ghost predicate Consistent(s: Snapshot) {
    WellFormed(s) && CommentCountsAgree(s) && LikeCountsAgree(s) && NoDuplicateLikes(s)
  }

  /** No comment or like refers to an id not issued yet, so a new blog starts with none. */
  lemma FreshIdUnreferenced(s: Snapshot, id: Id)
    requires WellFormed(s) && id >= s.nextId
    ensures CommentsOf(s.comments, id) == [] && LikesOf(s.likes, id) == []
  {
    forall c | c in s.comments ensures c.blogId != id {
      var j :| 0 <= j < |s.comments| && s.comments[j] == c;
      assert CommentBlogId(s.comments[j]) < s.nextId;
    }
    forall l | l in s.likes ensures l.blogId != id {
      var j :| 0 <= j < |s.likes| && s.likes[j] == l;
      assert LikeBlogId(s.likes[j]) < s.nextId;
    }
    FilterNone(s.comments, (c: Comment) => c.blogId == id);
    FilterNone(s.likes, (l: Like) => l.blogId == id);
  }

  lemma CommentsOfAppend(cs: seq<Comment>, c: Comment, id: Id)
    ensures |CommentsOf(cs + [c], id)| == |CommentsOf(cs, id)| + (if c.blogId == id then 1 else 0)
  {
    FilterLengthAppend(cs, c, (c: Comment) => c.blogId == id);
  }

  lemma CommentsOfRemoveAt(cs: seq<Comment>, i: nat, id: Id)
    requires i < |cs|
    ensures |CommentsOf(RemoveAt(cs, i), id)| + (if cs[i].blogId == id then 1 else 0) == |CommentsOf(cs, id)|
  {
    FilterLengthRemoveAt(cs, i, (c: Comment) => c.blogId == id);
  }

  lemma LikesOfAppend(ls: seq<Like>, l: Like, id: Id)
    ensures |LikesOf(ls + [l], id)| == |LikesOf(ls, id)| + (if l.blogId == id then 1 else 0)
  {
    FilterLengthAppend(ls, l, (l: Like) => l.blogId == id);
  }

  // ------------------------------------------------------------------ writes

  /** A fresh `_id` (ObjectIds are made by the client, before anything is written). */
  function TakeId(s: Snapshot): Snapshot {
    s.(nextId := s.nextId + 1)
  }

  /** Another user (not at index `except`) already has this `_id`, username or email: the unique indexes refuse the write. */
  predicate UserClash(users: seq<User>, u: User, except: int) {
    exists k | 0 <= k < |users| :: k != except && (users[k].id == u.id || users[k].username == u.username || users[k].email == u.email)
  }

  /** Another blog already has this `_id` or slug. */
  predicate BlogClash(blogs: seq<Blog>, b: Blog, except: int) {
    exists k | 0 <= k < |blogs| :: k != except && (blogs[k].id == b.id || blogs[k].slug == b.slug)
  }

  /** The password the pre-save hook leaves. */
  function HashedPassword(d: UserDraft, hash: string -> string): string {
    if d.passwordModified then hash(d.fields.password) else d.fields.password
  }

  /**
   * `user.save()`: schema validation, then the pre-save hook (a modified
   * password is hashed), then the write, which the unique indexes can refuse;
   * a new document is inserted, a loaded one replaces the stored user with
   * its `_id` (none left: `DocumentNotFoundError`).
   */
  function SaveUserSpec(s: Snapshot, d: UserDraft, hash: string -> string, fails: bool): (w: Written<User>)
    ensures w.result.None? ==> w.state == s
    ensures w.result.Some? ==>
      && UserConforms(d.fields)
      && w.result.value == ToUser(d.id, d.fields.(password := HashedPassword(d, hash)), d.createdAt)
      && w.state.blogs == s.blogs && w.state.comments == s.comments && w.state.likes == s.likes
      && w.state.tokens == s.tokens && w.state.nextId == s.nextId
    ensures w.result.Some? && d.isNew ==> w.state.users == s.users + [w.result.value]
    ensures w.result.Some? && !d.isNew ==>
      UserIndex(s.users, d.id).Some? && w.state.users == s.users[UserIndex(s.users, d.id).value := w.result.value]
  {
    if fails || !UserConforms(d.fields) then Written(s, None)
    else
      var u := ToUser(d.id, d.fields.(password := HashedPassword(d, hash)), d.createdAt);
      if d.isNew then
        if UserClash(s.users, u, -1) then Written(s, None)
        else Written(s.(users := s.users + [u]), Some(u))
      else
        match UserIndex(s.users, d.id)
        case None => Written(s, None)
        case Some(i) =>
          if UserClash(s.users, u, i) then Written(s, None)
          else Written(s.(users := s.users[i := u]), Some(u))
  }

  /** The slug the pre-validate hook leaves. */
  function DraftAfterHook(d: BlogDraft, genSlug: string -> string): BlogDraft {
    d.(fields := d.fields.(slug := SlugAfterHook(d.fields.title, d.fields.slug, genSlug)))
  }

  /**
   * `blog.save()`: the pre-validate hook (a missing slug is derived from the
   * title), schema validation, then the write, which the unique indexes can
   * refuse.
   */
  function SaveBlogSpec(s: Snapshot, d: BlogDraft, genSlug: string -> string, fails: bool): (w: Written<Blog>)
    ensures w.result.None? ==> w.state == s
    ensures w.result.Some? ==>
      && BlogConforms(DraftAfterHook(d, genSlug).fields)
      && w.result.value == BlogOf(DraftAfterHook(d, genSlug))
      && w.state.users == s.users && w.state.comments == s.comments && w.state.likes == s.likes
      && w.state.tokens == s.tokens && w.state.nextId == s.nextId
    ensures w.result.Some? && d.isNew ==> w.state.blogs == s.blogs + [w.result.value]
    ensures w.result.Some? && !d.isNew ==>
      BlogIndex(s.blogs, d.id).Some? && w.state.blogs == s.blogs[BlogIndex(s.blogs, d.id).value := w.result.value]
  {
    var h := DraftAfterHook(d, genSlug);
    if !BlogConforms(h.fields) || fails then Written(s, None)
    else
      var b := BlogOf(h);
      if d.isNew then
        if BlogClash(s.blogs, b, -1) then Written(s, None)
        else Written(s.(blogs := s.blogs + [b]), Some(b))
      else
        match BlogIndex(s.blogs, d.id)
        case None => Written(s, None)
        case Some(i) =>
          if BlogClash(s.blogs, b, i) then Written(s, None)
          else Written(s.(blogs := s.blogs[i := b]), Some(b))
  }

  /**
   * `blog.save()` on a document loaded with only `_id` and one counter
   * (`select('_id commentsCount')`, `select('likesCount')`): only that
   * modified path is written, and the unselected paths are not validated.
   */
  function SetCommentsCountSpec(s: Snapshot, blogId: Id, count: int, fails: bool): (w: Written<Blog>)
    ensures w.result.None? ==> w.state == s
    ensures w.result.Some? ==>
      && BlogIndex(s.blogs, blogId).Some?
      && var i := BlogIndex(s.blogs, blogId).value;
      && w.result.value == s.blogs[i].(commentsCount := count)
      && w.state == s.(blogs := s.blogs[i := w.result.value])
  {
    if fails then Written(s, None)
    else match BlogIndex(s.blogs, blogId)
      case None => Written(s, None)
      case Some(i) =>
        var b := s.blogs[i].(commentsCount := count);
        Written(s.(blogs := s.blogs[i := b]), Some(b))
  }

  function SetLikesCountSpec(s: Snapshot, blogId: Id, count: int, fails: bool): (w: Written<Blog>)
    ensures w.result.None? ==> w.state == s
    ensures w.result.Some? ==>
      && BlogIndex(s.blogs, blogId).Some?
      && var i := BlogIndex(s.blogs, blogId).value;
      && w.result.value == s.blogs[i].(likesCount := count)
      && w.state == s.(blogs := s.blogs[i := w.result.value])
  {
    if fails then Written(s, None)
    else match BlogIndex(s.blogs, blogId)
      case None => Written(s, None)
      case Some(i) =>
        var b := s.blogs[i].(likesCount := count);
        Written(s.(blogs := s.blogs[i := b]), Some(b))
  }

  /** `Comment.create({ blogId, content, userId })`: validated, then appended with a fresh `_id`. */
  function CreateCommentSpec(s: Snapshot, blogId: Id, userId: Id, content: string, now: int, fails: bool): (w: Written<Comment>)
    ensures w.state.users == s.users && w.state.blogs == s.blogs && w.state.likes == s.likes && w.state.tokens == s.tokens
    ensures w.state.nextId == s.nextId + 1
    ensures w.result.None? ==> w.state.comments == s.comments
    ensures w.result.Some? <==> !fails && CommentConforms(Some(blogId), Some(userId), content)
    ensures w.result.Some? ==>
      w.result.value == Comment(s.nextId, blogId, userId, content, now) && w.state.comments == s.comments + [w.result.value]
  {
    var s' := TakeId(s);
    if !CommentConforms(Some(blogId), Some(userId), content) || fails then Written(s', None)
    else
      var c := Comment(s.nextId, blogId, userId, content, now);
      Written(s'.(comments := s.comments + [c]), Some(c))
  }

  /** `Like.create({ blogId, userId })`. */
  function CreateLikeSpec(s: Snapshot, blogId: Id, userId: Id, now: int, fails: bool): (w: Written<Like>)
    ensures w.state.users == s.users && w.state.blogs == s.blogs && w.state.comments == s.comments && w.state.tokens == s.tokens
    ensures w.state.nextId == s.nextId + 1
    ensures w.result.None? <==> fails
    ensures w.result.None? ==> w.state.likes == s.likes
    ensures w.result.Some? ==> w.result.value == Like(s.nextId, blogId, userId, now) && w.state.likes == s.likes + [w.result.value]
  {
    var s' := TakeId(s);
    if fails then Written(s', None)
    else
      var l := Like(s.nextId, blogId, userId, now);
      Written(s'.(likes := s.likes + [l]), Some(l))
  }

  /** `Token.create({ token, userId })`. */
  function CreateTokenSpec(s: Snapshot, token: string, userId: Id, fails: bool): (w: Written<TokenRecord>)
    ensures w.state.users == s.users && w.state.blogs == s.blogs && w.state.comments == s.comments && w.state.likes == s.likes
    ensures w.state.nextId == s.nextId + 1
    ensures w.result.None? <==> fails
    ensures w.result.None? ==> w.state.tokens == s.tokens
    ensures w.result.Some? ==> w.result.value == TokenRecord(s.nextId, token, userId) && w.state.tokens == s.tokens + [w.result.value]
  {
    var s' := TakeId(s);
    if fails then Written(s', None)
    else
      var t := TokenRecord(s.nextId, token, userId);
      Written(s'.(tokens := s.tokens + [t]), Some(t))
  }

  /** `deleteOne({ _id })` on the blogs: the first blog with that id goes, the rest stay in order. */
  function DeleteBlogSpec(s: Snapshot, id: Id, fails: bool): (w: Written<bool>)
    ensures w.result.None? <==> fails
    ensures w.result.None? ==> w.state == s
    ensures w.result.Some? ==> w.state.users == s.users && w.state.comments == s.comments && w.state.likes == s.likes
                               && w.state.tokens == s.tokens && w.state.nextId == s.nextId
    ensures w.result == Some(true) ==> BlogIndex(s.blogs, id).Some? && w.state.blogs == RemoveAt(s.blogs, BlogIndex(s.blogs, id).value)
    ensures w.result == Some(false) ==> BlogIndex(s.blogs, id).None? && w.state == s
  {
    if fails then Written(s, None)
    else match BlogIndex(s.blogs, id)
      case None => Written(s, Some(false))
      case Some(i) => Written(s.(blogs := RemoveAt(s.blogs, i)), Some(true))
  }

  /** `Comment.deleteOne({ _id })`. */
  function DeleteCommentSpec(s: Snapshot, id: Id, fails: bool): (w: Written<bool>)
    ensures w.result.None? <==> fails
    ensures w.result.None? ==> w.state == s
    ensures w.result.Some? ==> w.state.users == s.users && w.state.blogs == s.blogs && w.state.likes == s.likes
                               && w.state.tokens == s.tokens && w.state.nextId == s.nextId
    ensures w.result == Some(true) ==> CommentIndex(s.comments, id).Some? && w.state.comments == RemoveAt(s.comments, CommentIndex(s.comments, id).value)
    ensures w.result == Some(false) ==> CommentIndex(s.comments, id).None? && w.state == s
  {
    if fails then Written(s, None)
    else match CommentIndex(s.comments, id)
      case None => Written(s, Some(false))
      case Some(i) => Written(s.(comments := RemoveAt(s.comments, i)), Some(true))
  }

  /** `User.deleteOne({ _id })`. */
  function DeleteUserSpec(s: Snapshot, id: Id, fails: bool): (w: Written<bool>)
    ensures w.result.None? <==> fails
    ensures w.result.None? ==> w.state == s
    ensures w.result.Some? ==> w.state.blogs == s.blogs && w.state.comments == s.comments && w.state.likes == s.likes
                               && w.state.tokens == s.tokens && w.state.nextId == s.nextId
    ensures w.result == Some(true) ==> UserIndex(s.users, id).Some? && w.state.users == RemoveAt(s.users, UserIndex(s.users, id).value)
    ensures w.result == Some(false) ==> UserIndex(s.users, id).None? && w.state == s
  {
    if fails then Written(s, None)
    else match UserIndex(s.users, id)
      case None => Written(s, Some(false))
      case Some(i) => Written(s.(users := RemoveAt(s.users, i)), Some(true))
  }

  /** `Blog.deleteMany({ author })`. */
  function DeleteBlogsBySpec(s: Snapshot, author: Id, fails: bool): (w: Written<bool>)
    ensures w.result.None? <==> fails
    ensures w.result.None? ==> w.state == s
    ensures w.result.Some? ==> w.state == s.(blogs := BlogsNotBy(s.blogs, author))
  {
    if fails then Written(s, None)
    else Written(s.(blogs := BlogsNotBy(s.blogs, author)), Some(true))
  }

  // ------------------------------------------------- well-formedness kept

  lemma TakeIdKeepsConsistent(s: Snapshot)
    requires Consistent(s)
    ensures Consistent(TakeId(s))
  {
    var t := TakeId(s);
    KeysBelowRaise(s.users, UserId, s.nextId, t.nextId);
    KeysBelowRaise(s.blogs, BlogId, s.nextId, t.nextId);
    KeysBelowRaise(s.comments, CommentId, s.nextId, t.nextId);
    KeysBelowRaise(s.comments, CommentBlogId, s.nextId, t.nextId);
    KeysBelowRaise(s.likes, LikeId, s.nextId, t.nextId);
    KeysBelowRaise(s.likes, LikeBlogId, s.nextId, t.nextId);
    KeysBelowRaise(s.tokens, TokenId, s.nextId, t.nextId);
  }

  /**
   * A user save keeps ids, usernames and emails unique: the write happens only
   * when no other user holds the document's id, username or email.
   */
  lemma SaveUserKeepsConsistent(s: Snapshot, d: UserDraft, hash: string -> string, fails: bool)
    requires Consistent(s) && (d.isNew ==> d.id < s.nextId)
    ensures Consistent(SaveUserSpec(s, d, hash, fails).state)
  {
    var w := SaveUserSpec(s, d, hash, fails);
    if w.result.Some? {
      var u := w.result.value;
      if d.isNew {
        assert !UserClash(s.users, u, -1);
        DistinctAppend(s.users, u, UserId);
        DistinctAppend(s.users, u, Username);
        DistinctAppend(s.users, u, UserEmail);
        KeysBelowAppend(s.users, u, UserId, s.nextId);
      } else {
        var i := UserIndex(s.users, d.id).value;
        assert !UserClash(s.users, u, i);
        DistinctReplace(s.users, i, u, UserId);
        DistinctReplace(s.users, i, u, Username);
        DistinctReplace(s.users, i, u, UserEmail);
        assert UserId(s.users[i]) < s.nextId;
        KeysBelowReplace(s.users, i, u, UserId, s.nextId);
      }
    }
  }

  /**
   * A blog save keeps ids and slugs unique. It also keeps the counters in
   * agreement as long as the saved document carries the stored counters
   * (which a loaded document does until a controller assigns to them).
   */
  lemma SaveBlogKeepsConsistent(s: Snapshot, d: BlogDraft, genSlug: string -> string, fails: bool)
    requires Consistent(s) && (d.isNew ==> d.id < s.nextId)
    requires d.isNew ==> d.commentsCount == |CommentsOf(s.comments, d.id)| && d.likesCount == |LikesOf(s.likes, d.id)|
    requires !d.isNew && BlogIndex(s.blogs, d.id).Some? ==>
      var b := s.blogs[BlogIndex(s.blogs, d.id).value];
      d.commentsCount == b.commentsCount && d.likesCount == b.likesCount
    ensures Consistent(SaveBlogSpec(s, d, genSlug, fails).state)
  {
    var w := SaveBlogSpec(s, d, genSlug, fails);
    if w.result.Some? {
      var b := w.result.value;
      if d.isNew {
        assert !BlogClash(s.blogs, b, -1);
        DistinctAppend(s.blogs, b, BlogId);
        DistinctAppend(s.blogs, b, BlogSlug);
        KeysBelowAppend(s.blogs, b, BlogId, s.nextId);
      } else {
        var i := BlogIndex(s.blogs, d.id).value;
        assert !BlogClash(s.blogs, b, i);
        DistinctReplace(s.blogs, i, b, BlogId);
        DistinctReplace(s.blogs, i, b, BlogSlug);
        assert BlogId(s.blogs[i]) < s.nextId;
        KeysBelowReplace(s.blogs, i, b, BlogId, s.nextId);
      }
    }
  }

  /** A new refresh token gets the fresh id; nothing else the invariant speaks of changes. */
  lemma CreateTokenKeepsConsistent(s: Snapshot, token: string, userId: Id, fails: bool)
    requires Consistent(s)
    ensures Consistent(CreateTokenSpec(s, token, userId, fails).state)
  {
    var w := CreateTokenSpec(s, token, userId, fails);
    TakeIdKeepsConsistent(s);
    if w.result.Some? {
      var t := w.result.value;
      DistinctAppend(s.tokens, t, TokenId);
      KeysBelowAppend(s.tokens, t, TokenId, w.state.nextId);
    }
  }

  /** Removing a user touches no blog, comment or like. */
  lemma DeleteUserKeepsConsistent(s: Snapshot, id: Id, fails: bool)
    requires Consistent(s)
    ensures Consistent(DeleteUserSpec(s, id, fails).state)
  {
    var w := DeleteUserSpec(s, id, fails);
    if w.result == Some(true) {
      var i := UserIndex(s.users, id).value;
      DistinctRemoveAt(s.users, i, UserId);
      DistinctRemoveAt(s.users, i, Username);
      DistinctRemoveAt(s.users, i, UserEmail);
      KeysBelowRemoveAt(s.users, i, UserId, s.nextId);
    }
  }

  /** The store, with the collections the controllers change in place. */
  class Database {
    var users: seq<User>
    var blogs: seq<Blog>
    var comments: seq<Comment>
    var likes: seq<Like>
    var tokens: seq<TokenRecord>
    var nextId: nat

    function State(): Snapshot
      reads this
    {
      Snapshot(users, blogs, comments, likes, tokens, nextId)
    }

    constructor (s: Snapshot)
      ensures State() == s
    {
      users, blogs, comments, likes, tokens, nextId := s.users, s.blogs, s.comments, s.likes, s.tokens, s.nextId;
    }

    /** A fresh ObjectId. */
    method NewId() returns (id: Id)
      modifies this`nextId
      ensures id == old(nextId) && State() == TakeId(old(State()))
    {
      id := nextId;
      nextId := nextId + 1;
    }

    method SaveUser(doc: UserDocument, hash: string -> string, fails: bool) returns (saved: Option<User>)
      modifies this`users, doc`password
      ensures var w := SaveUserSpec(old(State()), old(doc.Draft()), hash, fails);
        State() == w.state && saved == w.result
    {
      if !UserConforms(doc.Fields()) {
        return None;
      }
      doc.HashPasswordHook(hash);
      if fails {
        return None;
      }
      var u := ToUser(doc.id, doc.Fields(), doc.createdAt);
      if doc.isNew {
        if UserClash(users, u, -1) {
          return None;
        }
        users := users + [u];
      } else {
        var i := UserIndex(users, doc.id);
        if i.None? || UserClash(users, u, i.value) {
          return None;
        }
        users := users[i.value := u];
      }
      saved := Some(u);
    }

    method SaveBlog(doc: BlogDocument, genSlug: string -> string, fails: bool) returns (saved: Option<Blog>)
      modifies this`blogs, doc`slug
      ensures var w := SaveBlogSpec(old(State()), old(doc.Draft()), genSlug, fails);
        State() == w.state && saved == w.result
    {
      doc.DeriveSlugHook(genSlug);
      if !BlogConforms(doc.Fields()) || fails {
        return None;
      }
      var b := BlogOf(doc.Draft());
      if doc.isNew {
        if BlogClash(blogs, b, -1) {
          return None;
        }
        blogs := blogs + [b];
      } else {
        var i := BlogIndex(blogs, doc.id);
        if i.None? || BlogClash(blogs, b, i.value) {
          return None;
        }
        blogs := blogs[i.value := b];
      }
      saved := Some(b);
    }

    method SetCommentsCount(blogId: Id, count: int, fails: bool) returns (saved: Option<Blog>)
      modifies this`blogs
      ensures var w := SetCommentsCountSpec(old(State()), blogId, count, fails);
        State() == w.state && saved == w.result
    {
      var i := BlogIndex(blogs, blogId);
      if fails || i.None? {
        return None;
      }
      var b := blogs[i.value].(commentsCount := count);
      blogs := blogs[i.value := b];
      saved := Some(b);
    }

    method SetLikesCount(blogId: Id, count: int, fails: bool) returns (saved: Option<Blog>)
      modifies this`blogs
      ensures var w := SetLikesCountSpec(old(State()), blogId, count, fails);
        State() == w.state && saved == w.result
    {
      var i := BlogIndex(blogs, blogId);
      if fails || i.None? {
        return None;
      }
      var b := blogs[i.value].(likesCount := count);
      blogs := blogs[i.value := b];
      saved := Some(b);
    }

    method CreateComment(blogId: Id, userId: Id, content: string, now: int, fails: bool) returns (created: Option<Comment>)
      modifies this`comments, this`nextId
      ensures var w := CreateCommentSpec(old(State()), blogId, userId, content, now, fails);
        State() == w.state && created == w.result
    {
      var id := NewId();
      if !CommentConforms(Some(blogId), Some(userId), content) || fails {
        return None;
      }
      var c := Comment(id, blogId, userId, content, now);
      comments := comments + [c];
      created := Some(c);
    }

    method CreateLike(blogId: Id, userId: Id, now: int, fails: bool) returns (created: Option<Like>)
      modifies this`likes, this`nextId
      ensures var w := CreateLikeSpec(old(State()), blogId, userId, now, fails);
        State() == w.state && created == w.result
    {
      var id := NewId();
      if fails {
        return None;
      }
      var l := Like(id, blogId, userId, now);
      likes := likes + [l];
      created := Some(l);
    }

    method CreateToken(token: string, userId: Id, fails: bool) returns (created: Option<TokenRecord>)
      modifies this`tokens, this`nextId
      ensures var w := CreateTokenSpec(old(State()), token, userId, fails);
        State() == w.state && created == w.result
    {
      var id := NewId();
      if fails {
        return None;
      }
      var t := TokenRecord(id, token, userId);
      tokens := tokens + [t];
      created := Some(t);
    }

    method DeleteBlog(id: Id, fails: bool) returns (done: Option<bool>)
      modifies this`blogs
      ensures var w := DeleteBlogSpec(old(State()), id, fails);
        State() == w.state && done == w.result
    {
      if fails {
        return None;
      }
      var i := BlogIndex(blogs, id);
      if i.None? {
        return Some(false);
      }
      blogs := RemoveAt(blogs, i.value);
      done := Some(true);
    }

    method DeleteComment(id: Id, fails: bool) returns (done: Option<bool>)
      modifies this`comments
      ensures var w := DeleteCommentSpec(old(State()), id, fails);
        State() == w.state && done == w.result
    {
      if fails {
        return None;
      }
      var i := CommentIndex(comments, id);
      if i.None? {
        return Some(false);
      }
      comments := RemoveAt(comments, i.value);
      done := Some(true);
    }

    method DeleteUser(id: Id, fails: bool) returns (done: Option<bool>)
      modifies this`users
      ensures var w := DeleteUserSpec(old(State()), id, fails);
        State() == w.state && done == w.result
    {
      if fails {
        return None;
      }
      var i := UserIndex(users, id);
      if i.None? {
        return Some(false);
      }
      users := RemoveAt(users, i.value);
      done := Some(true);
    }

    method DeleteBlogsBy(author: Id, fails: bool) returns (done: Option<bool>)
      modifies this`blogs
      ensures var w := DeleteBlogsBySpec(old(State()), author, fails);
        State() == w.state && done == w.result
    {
      if fails {
        return None;
      }
      blogs := BlogsNotBy(blogs, author);
      done := Some(true);
    }
  }
}
