/**
 * The user write controllers: `updateCurrentUser` (truthy body fields
 * overwrite the requester's own document, which is then saved) and
 * `deleteUser` (an admin removes the user in the path: the banners of that
 * user's blogs are destroyed on the upload host, the blogs removed, then the
 * user). `failAt` names the awaited call that throws.
 */
module Users {
  import opened Wrappers
  import opened Collections
  import opened Http
  import opened UserModel
  import opened BlogModel
  import opened Store

  const NoUserMessage: string := "User not found"

  // -------------------------------------------------------- updateCurrentUser

  /** The body fields of `updateCurrentUser`; `first_name` and `last_name` go to `firstName` and `lastName`. */
  datatype UserUpdate = UserUpdate(username: Option<string>, email: Option<string>, password: Option<string>,
                                   firstName: Option<string>, lastName: Option<string>)

  function Pick(v: Option<string>, current: string): string {
    if Truthy(v) then v.value else current
  }

  function PickOptional(v: Option<string>, current: Option<string>): Option<string> {
    if Truthy(v) then v else current
  }

  /**
   * The loaded document after the truthy assignments: the role is never
   * assigned, and the password counts as modified only if a truthy new one
   * differs from the stored hash.
   */
  function UpdatedUserDraft(u: User, up: UserUpdate): UserDraft {
    var f := UserFields(Pick(up.username, u.username), Pick(up.email, u.email), Pick(up.password, u.password),
                        RoleName(u.role), PickOptional(up.firstName, u.firstName), PickOptional(up.lastName, u.lastName));
    UserDraft(u.id, u.createdAt, false, f, Truthy(up.password) && up.password.value != u.password)
  }

  /**
   * `updateCurrentUser` on a snapshot: `failAt` 1 makes the lookup throw, 2
   * the save. The reply is the saved document, which was loaded with
   * `+password`, so it carries the stored hash.
   */
  function UpdateCurrentUserSpec(s: Snapshot, userId: Id, up: UserUpdate, hash: string -> string, failAt: nat): (o: Outcome<User>)
    ensures o.reply.Failure? ==> o.state == s
    ensures failAt == 1 ==> o.reply == Failure(500, ServerError, ServerErrorMessageShort)
    ensures failAt != 1 && FindUser(s, userId).None? ==> o.reply == Failure(404, NotFound, NoUserMessage)
    ensures o.reply.Success? ==> o.reply.status == 200 && failAt != 1 && failAt != 2
  {
    if failAt == 1 then Outcome(s, Failure(500, ServerError, ServerErrorMessageShort))
    else match FindUser(s, userId)
      case None => Outcome(s, Failure(404, NotFound, NoUserMessage))
      case Some(u) =>
        var w := SaveUserSpec(s, UpdatedUserDraft(u, up), hash, failAt == 2);
        match w.result
        case None => Outcome(w.state, Failure(500, ServerError, ServerErrorMessageShort))
        case Some(saved) => Outcome(w.state, Success(200, saved))
  }

  /**
   * A successful update replaces the requester's user in place: each of
   * username, email, first and last name is the body's value when truthy and
   * the stored one otherwise; a truthy new password is stored hashed, any
   * other password is kept byte for byte; the id, the creation time and the
   * ROLE are never changed; no other user or collection changes.
   */
  lemma UpdateCurrentUserSuccess(s: Snapshot, userId: Id, up: UserUpdate, hash: string -> string, failAt: nat)
    requires UpdateCurrentUserSpec(s, userId, up, hash, failAt).reply.Success?
    ensures UserIndex(s.users, userId).Some?
    ensures var o := UpdateCurrentUserSpec(s, userId, up, hash, failAt);
      var i := UserIndex(s.users, userId).value;
      var u := s.users[i];
      var u' := o.reply.body;
      && o.state == s.(users := s.users[i := u'])
      && u'.username == Pick(up.username, u.username) && u'.email == Pick(up.email, u.email)
      && u'.firstName == PickOptional(up.firstName, u.firstName) && u'.lastName == PickOptional(up.lastName, u.lastName)
      && u'.password == (if Truthy(up.password) && up.password.value != u.password then hash(up.password.value) else u.password)
      && u'.role == u.role && u'.id == u.id && u'.createdAt == u.createdAt
  {
    var u := FindUser(s, userId).value;
    var d := UpdatedUserDraft(u, up);
    assert ParseRole(RoleName(u.role)) == Some(u.role);
    var w := SaveUserSpec(s, d, hash, failAt == 2);
    assert w.result.Some?;
  }

  lemma UpdateCurrentUserKeepsConsistent(s: Snapshot, userId: Id, up: UserUpdate, hash: string -> string, failAt: nat)
    requires Consistent(s)
    ensures Consistent(UpdateCurrentUserSpec(s, userId, up, hash, failAt).state)
  {
    if failAt != 1 && FindUser(s, userId).Some? {
      SaveUserKeepsConsistent(s, UpdatedUserDraft(FindUser(s, userId).value, up), hash, failAt == 2);
    }
  }

  /** The assignments `if (username) user.username = username` and so on, on the loaded document. */
  method AssignTruthy(user: UserDocument, u: User, up: UserUpdate)
    requires user.Draft() == UserDraft(u.id, u.createdAt, false, UserFieldsOf(u), false)
    modifies user
    ensures user.Draft() == UpdatedUserDraft(u, up)
  {
    if Truthy(up.username) {
      user.username := up.username.value;
    }
    if Truthy(up.email) {
      user.email := up.email.value;
    }
    if Truthy(up.password) {
      user.SetPassword(up.password.value);
    }
    if Truthy(up.firstName) {
      user.firstName := up.firstName;
    }
    if Truthy(up.lastName) {
      user.lastName := up.lastName;
    }
  }

  method UpdateCurrentUser(db: Database, userId: Id, up: UserUpdate, hash: string -> string, failAt: nat)
    returns (reply: Reply<User>)
    modifies db
    ensures var o := UpdateCurrentUserSpec(old(db.State()), userId, up, hash, failAt);
      db.State() == o.state && reply == o.reply
  {
    if failAt == 1 {
      return Failure(500, ServerError, ServerErrorMessageShort);
    }
    var found := FindUser(db.State(), userId);
    if found.None? {
      return Failure(404, NotFound, NoUserMessage);
    }
    var user := new UserDocument.Load(found.value);
    AssignTruthy(user, found.value, up);
    var saved := db.SaveUser(user, hash, failAt == 2);
    if saved.None? {
      return Failure(500, ServerError, ServerErrorMessageShort);
    }
    reply := Success(200, saved.value);
  }

  // --------------------------------------------------------------- deleteUser

  /** `blogs.map(({ banner }) => banner.publicId)` over the user's blogs, in store order. */
  function BannerIds(blogs: seq<Blog>): (ids: seq<string>)
    ensures |ids| == |blogs|
    ensures forall k :: 0 <= k < |blogs| ==> ids[k] == blogs[k].banner.publicId
  {
    MapSeq(blogs, (b: Blog) => b.banner.publicId)
  }

  /**
   * `deleteUser` on a snapshot, for the user in the PATH: `failAt` 1 makes
   * the blog query throw, 2 the upload host's `delete_resources`, 3
   * `Blog.deleteMany`, 4 `User.deleteOne`. Removing a user that does not
   * exist still answers 204.
   */
  function DeleteUserSpec(s: Snapshot, targetId: Id, failAt: nat): (o: Deletion)
    ensures o.reply.Failure? ==> o.reply == Failure(500, ServerError, ServerErrorMessage)
    ensures failAt == 1 || failAt == 2 ==> o.state == s && o.destroyed == []
    ensures o.reply.Success? <==> failAt !in {1, 2, 3, 4}
  {
    var blogs := BlogsBy(s.blogs, targetId);
    var publicIds := BannerIds(blogs);
    if failAt == 1 || failAt == 2 then Deletion(s, Failure(500, ServerError, ServerErrorMessage), [])
    else
      var w := DeleteBlogsBySpec(s, targetId, failAt == 3);
      if w.result.None? then Deletion(w.state, Failure(500, ServerError, ServerErrorMessage), publicIds)
      else
        var v := Store.DeleteUserSpec(w.state, targetId, failAt == 4);
        if v.result.None? then Deletion(v.state, Failure(500, ServerError, ServerErrorMessage), publicIds)
        else Deletion(v.state, Success(204, ()), publicIds)
  }

  /**
   * A successful delete destroys the banner of every blog of the target,
   * removes exactly the target's blogs (the others stay, in order), then
   * the target itself; comments, likes and refresh tokens are left in place.
   */
  lemma DeleteUserSuccess(s: Snapshot, targetId: Id, failAt: nat)
    requires DeleteUserSpec(s, targetId, failAt).reply.Success?
    ensures var o := DeleteUserSpec(s, targetId, failAt);
      && o.reply == Success(204, ())
      && o.destroyed == BannerIds(BlogsBy(s.blogs, targetId))
      && o.state.blogs == BlogsNotBy(s.blogs, targetId)
      && (forall b :: b in o.state.blogs ==> b.author != targetId)
      && o.state.users == (match UserIndex(s.users, targetId) case Some(i) => RemoveAt(s.users, i) case None => s.users)
      && (DistinctBy(s.users, UserId) ==> FindUser(o.state, targetId).None?)
      && o.state.comments == s.comments && o.state.likes == s.likes && o.state.tokens == s.tokens
  {
    var o := DeleteUserSpec(s, targetId, failAt);
    var w := DeleteBlogsBySpec(s, targetId, false);
    var v := Store.DeleteUserSpec(w.state, targetId, false);
    match UserIndex(s.users, targetId)
    case None =>
    case Some(i) =>
      if DistinctBy(s.users, UserId) {
        var r := RemoveAt(s.users, i);
        forall k | 0 <= k < |r| ensures r[k].id != targetId {
          var k' := if k < i then k else k + 1;
          assert UserId(s.users[k']) != UserId(s.users[i]);
        }
      }
  }

  /** When `User.deleteOne` throws, the blogs and their banners are already gone but the user stays. */
  lemma DeleteUserLateFailure(s: Snapshot, targetId: Id)
    ensures var o := DeleteUserSpec(s, targetId, 4);
      && o.reply.Failure?
      && o.state == s.(blogs := BlogsNotBy(s.blogs, targetId))
      && o.destroyed == BannerIds(BlogsBy(s.blogs, targetId))
  {
  }

  lemma {:induction false} KeysBelowFilter<T>(xs: seq<T>, p: T -> bool, key: T -> Id, bound: nat)
    requires KeysBelow(xs, key, bound)
    ensures KeysBelow(Filter(xs, p), key, bound)
  {
    var r := Filter(xs, p);
    forall k | 0 <= k < |r| ensures key(r[k]) < bound {
      var j :| 0 <= j < |xs| && xs[j] == r[k];
    }
  }

  /** Removing the blogs of an author keeps the store consistent: each remaining blog still has its own comments and likes. */
  lemma RemoveBlogsByKeepsConsistent(s: Snapshot, author: Id)
    requires Consistent(s)
    ensures Consistent(s.(blogs := BlogsNotBy(s.blogs, author)))
  {
    var p := (b: Blog) => b.author != author;
    var t := s.(blogs := BlogsNotBy(s.blogs, author));
    DistinctFilter(s.blogs, p, BlogId);
    DistinctFilter(s.blogs, p, BlogSlug);
    KeysBelowFilter(s.blogs, p, BlogId, s.nextId);
    forall k | 0 <= k < |t.blogs|
      ensures t.blogs[k].commentsCount == |CommentsOf(t.comments, t.blogs[k].id)|
      ensures t.blogs[k].likesCount == |LikesOf(t.likes, t.blogs[k].id)|
    {
      var j :| 0 <= j < |s.blogs| && s.blogs[j] == t.blogs[k];
    }
  }

  lemma DeleteUserKeepsConsistent(s: Snapshot, targetId: Id, failAt: nat)
    requires Consistent(s)
    ensures Consistent(DeleteUserSpec(s, targetId, failAt).state)
  {
    if failAt != 1 && failAt != 2 {
      var w := DeleteBlogsBySpec(s, targetId, failAt == 3);
      if w.result.Some? {
        RemoveBlogsByKeepsConsistent(s, targetId);
        Store.DeleteUserKeepsConsistent(w.state, targetId, failAt == 4);
      }
    }
  }

  /**
   * `deleteUser` on the store. The upload host's `delete_resources` is a
   * foreign call; `destroyed` records what it was asked to remove.
   */
  method DeleteUser(db: Database, targetId: Id, failAt: nat)
    returns (reply: Reply<()>, destroyed: seq<string>)
    modifies db
    ensures var o := DeleteUserSpec(old(db.State()), targetId, failAt);
      db.State() == o.state && reply == o.reply && destroyed == o.destroyed
  {
    destroyed := [];
    if failAt == 1 {
      return Failure(500, ServerError, ServerErrorMessage), destroyed;
    }
    var blogs := BlogsBy(db.blogs, targetId);
    var publicIds := BannerIds(blogs);
    if failAt == 2 {
      return Failure(500, ServerError, ServerErrorMessage), destroyed;
    }
    destroyed := publicIds;
    var removed := db.DeleteBlogsBy(targetId, failAt == 3);
    if removed.None? {
      return Failure(500, ServerError, ServerErrorMessage), destroyed;
    }
    var done := db.DeleteUser(targetId, failAt == 4);
    if done.None? {
      return Failure(500, ServerError, ServerErrorMessage), destroyed;
    }
    reply := Success(204, ());
  }
}
