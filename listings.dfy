/**
 * The read-only listing controllers: `getAllBlogs`, `getBlogsByUser`,
 * `getBlogBySlug` and `getAllUser`. Each reads a store snapshot and answers;
 * none writes. `parseInt` is given as a parameter (its treatment of prefixes,
 * radixes and trailing text is not part of this model), and `fails` stands
 * for a query that throws, which the handlers turn into a 500.
 */
module Listings {
  import opened Wrappers
  import opened Text
  import opened Collections
  import opened Http
  import opened UserModel
  import opened BlogModel
  import opened Store

  /** `config.defaultResLimit` and `config.defaultResOffset`. */
  const DefaultLimit: int := 20
  const DefaultOffset: int := 0

  const NoBlogMessage: string := "Blog not found."

  /**
   * `parseInt(req.query.x as string) || default`: the parsed number unless
   * the value is missing, does not parse (`NaN`) or parses to 0, which are
   * all falsy.
   */
  function IntOr(query: Option<string>, parseInt: string -> Option<int>, default: int): (n: int)
    ensures query.None? ==> n == default
    ensures n == default || (query.Some? && parseInt(query.value) == Some(n))
    ensures n != 0 || default == 0
  {
    match query
    case None => default
    case Some(v) =>
      match parseInt(v)
      case Some(k) => if k != 0 then k else default
      case None => default
  }

  /**
   * A request that passed `paginationSchema` reaches the controller with a
   * limit between 1 and 50 and a non-negative offset, as long as `parseInt`
   * reads an `isInt`-shaped text as the number it denotes.
   */
  lemma PageParamsInRange(limit: Option<string>, offset: Option<string>, parseInt: string -> Option<int>)
    requires forall v :: IntegerText(v).Some? ==> parseInt(v) == IntegerText(v)
    requires limit.Some? ==> IntegerText(limit.value).Some? && 1 <= IntegerText(limit.value).value <= 50
    requires offset.Some? ==> IntegerText(offset.value).Some? && IntegerText(offset.value).value >= 0
    ensures 1 <= IntOr(limit, parseInt, DefaultLimit) <= 50
    ensures IntOr(offset, parseInt, DefaultOffset) >= 0
  {
    if limit.Some? {
      assert parseInt(limit.value) == IntegerText(limit.value);
    }
    if offset.Some? {
      assert parseInt(offset.value) == IntegerText(offset.value);
    }
  }

  function Abs(n: int): nat { if n < 0 then -n else n }

  /**
   * `.skip(offset).limit(limit)` as the store applies them: a negative skip
   * is refused (the query throws, `None`), a negative limit takes its
   * absolute value, and a limit of 0 means no limit.
   */
  function Window<T>(xs: seq<T>, offset: int, limit: int): (r: Option<seq<T>>)
    ensures r.None? <==> offset < 0
    ensures r.Some? && limit != 0 ==> r.value == Page(xs, offset, Abs(limit))
    ensures r.Some? && limit == 0 ==> r.value == Page(xs, offset, |xs|)
  {
    if offset < 0 then None
    else Some(Page(xs, offset, if limit == 0 then |xs| else Abs(limit)))
  }

  /** The listing page the controllers answer with. */
  datatype Listing<T> = Listing(limit: int, offset: int, total: nat, items: seq<T>)

  /** `{ status: 'published' }` is added for a buyer or a seller; an admin, or a missing user, gets no status filter. */
  predicate PublishedOnly(role: Option<Role>) {
    role == Some(Buyer) || role == Some(Seller)
  }

  predicate Visible(role: Option<Role>, b: Blog) {
    !PublishedOnly(role) || b.status == Published
  }

  function CreatedAt(b: Blog): int { b.createdAt }

  /** The filter of `getAllBlogs`: `{ status: 'published' }` for a buyer or a seller, nothing otherwise. */
  function VisibleTo(role: Option<Role>): Blog -> bool {
    (b: Blog) => Visible(role, b)
  }

  /** The filter of `getBlogsByUser`: the same, with `{ author }` added. */
  function ByAuthorVisibleTo(author: Id, role: Option<Role>): Blog -> bool {
    (b: Blog) => b.author == author && Visible(role, b)
  }

  /** The blog as the listings show it: no banner `publicId`, the author populated (`null` once that user is gone). */
  function ViewOf(s: Snapshot, b: Blog): (v: BlogView)
    ensures v.id == b.id && v.title == b.title && v.slug == b.slug && v.status == b.status && v.createdAt == b.createdAt
    ensures v.author.Some? <==> FindUser(s, b.author).Some?
    ensures v.author.Some? ==> v.author.value.id == b.author
  {
    var author := match FindUser(s, b.author) case Some(u) => Some(AuthorViewOf(u)) case None => None;
    BlogView(b.id, b.title, b.slug, b.content, BannerView(b.banner.url, b.banner.width, b.banner.height), author,
             b.viewsCount, b.likesCount, b.commentsCount, b.status, b.createdAt)
  }

  /** How many documents `.skip(offset).limit(limit)` leaves of `n`, with a limit of 0 taking the whole rest. */
  function WindowLength(n: nat, offset: nat, limit: int): nat {
    if offset >= n then 0 else Min(if limit == 0 then n else Abs(limit), n - offset)
  }

  /** A page as the listings send it: each blog as `ViewOf` shows it. */
  function Views(s: Snapshot, page: seq<Blog>): (r: seq<BlogView>)
    ensures |r| == |page| && forall k :: 0 <= k < |page| ==> r[k] == ViewOf(s, page[k])
  {
    MapSeq(page, (b: Blog) => ViewOf(s, b))
  }

  /** The blogs a filter matches, newest first, then the window; `None` when the window is refused. */
  function BlogPage(blogs: seq<Blog>, p: Blog -> bool, offset: int, limit: int): Option<seq<Blog>> {
    Window(SortDesc(Filter(blogs, p), CreatedAt), offset, limit)
  }

  /**
   * Everything a blog page holds matches the filter, the page is newest
   * first, holds at most `|limit|` blogs (a limit of 0 is the whole rest)
   * and starts `offset` places into the sorted matches.
   */
  lemma {:induction false} BlogPageShape(blogs: seq<Blog>, p: Blog -> bool, offset: int, limit: int)
    requires BlogPage(blogs, p, offset, limit).Some?
    ensures var page := BlogPage(blogs, p, offset, limit).value;
      var sorted := SortDesc(Filter(blogs, p), CreatedAt);
      && (forall k :: 0 <= k < |page| ==> page[k] in blogs && p(page[k]))
      && SortedDesc(page, CreatedAt)
      && (limit != 0 ==> |page| <= Abs(limit))
      && offset >= 0 && |page| == WindowLength(|sorted|, offset, limit)
      && (forall k :: 0 <= k < |page| ==> page[k] == sorted[offset + k])
  {
    var matches := Filter(blogs, p);
    var sorted := SortDesc(matches, CreatedAt);
    var page := BlogPage(blogs, p, offset, limit).value;
    PageSorted(sorted, offset, if limit == 0 then |sorted| else Abs(limit), CreatedAt);
    forall k | 0 <= k < |page| ensures page[k] in blogs && p(page[k]) {
      assert page[k] == sorted[offset + k];
      SortDescMembers(matches, CreatedAt, page[k]);
      var j :| 0 <= j < |matches| && matches[j] == page[k];
    }
  }

  /** The views of a page are the views of the sorted matches, one by one, from `offset` on. */
  lemma PageViews(s: Snapshot, blogs: seq<Blog>, p: Blog -> bool, offset: int, limit: int, items: seq<BlogView>)
    requires BlogPage(blogs, p, offset, limit).Some?
    requires items == Views(s, BlogPage(blogs, p, offset, limit).value)
    ensures var sorted := SortDesc(Filter(blogs, p), CreatedAt);
      && offset >= 0 && |items| == WindowLength(|sorted|, offset, limit)
      && (forall k :: 0 <= k < |items| ==> items[k] == ViewOf(s, sorted[offset + k]))
  {
    BlogPageShape(blogs, p, offset, limit);
  }

  /**
   * `getAllBlogs`: `total` counts every blog the viewer may see, whatever
   * the page; the page is those blogs newest first, `offset` skipped and at
   * most `limit` taken; the reply echoes the limit and offset used.
   */
  function GetAllBlogs(s: Snapshot, userId: Id, limitQuery: Option<string>, offsetQuery: Option<string>,
                       parseInt: string -> Option<int>, fails: bool): (r: Reply<Listing<BlogView>>)
    ensures r.Failure? ==> r == Failure(500, ServerError, ServerErrorMessage)
    ensures r.Success? <==> !fails && IntOr(offsetQuery, parseInt, DefaultOffset) >= 0
  {
    var limit := IntOr(limitQuery, parseInt, DefaultLimit);
    var offset := IntOr(offsetQuery, parseInt, DefaultOffset);
    var role := RoleOf(s, userId);
    var p := VisibleTo(role);
    match BlogPage(s.blogs, p, offset, limit)
    case None => Failure(500, ServerError, ServerErrorMessage)
    case Some(page) =>
      if fails then Failure(500, ServerError, ServerErrorMessage)
      else Success(200, Listing(limit, offset, |Filter(s.blogs, p)|, Views(s, page)))
  }

  /** A buyer or a seller is shown published blogs only, and the total counts only those. */
  lemma GetAllBlogsForReaders(s: Snapshot, userId: Id, limitQuery: Option<string>, offsetQuery: Option<string>,
                              parseInt: string -> Option<int>, fails: bool)
    requires PublishedOnly(RoleOf(s, userId))
    requires GetAllBlogs(s, userId, limitQuery, offsetQuery, parseInt, fails).Success?
    ensures var l := GetAllBlogs(s, userId, limitQuery, offsetQuery, parseInt, fails).body;
      && (forall k :: 0 <= k < |l.items| ==> l.items[k].status == Published)
      && l.total == |Filter(s.blogs, (b: Blog) => b.status == Published)|
  {
    var role := RoleOf(s, userId);
    var p := VisibleTo(role);
    var q := (b: Blog) => b.status == Published;
    var offset := IntOr(offsetQuery, parseInt, DefaultOffset);
    var limit := IntOr(limitQuery, parseInt, DefaultLimit);
    BlogPageShape(s.blogs, p, offset, limit);
    var page := BlogPage(s.blogs, p, offset, limit).value;
    var l := GetAllBlogs(s, userId, limitQuery, offsetQuery, parseInt, fails).body;
    assert l.items == Views(s, page);
    forall k | 0 <= k < |l.items| ensures l.items[k].status == Published {
      assert p(page[k]);
    }
    forall x | x in s.blogs ensures p(x) == q(x) {
    }
    FilterSame(s.blogs, p, q);
  }

  /** An admin, or a caller whose user is gone, is shown every blog, drafts included. */
  lemma GetAllBlogsForAdmins(s: Snapshot, userId: Id, limitQuery: Option<string>, offsetQuery: Option<string>,
                             parseInt: string -> Option<int>, fails: bool)
    requires !PublishedOnly(RoleOf(s, userId))
    requires GetAllBlogs(s, userId, limitQuery, offsetQuery, parseInt, fails).Success?
    ensures var l := GetAllBlogs(s, userId, limitQuery, offsetQuery, parseInt, fails).body;
      var sorted := SortDesc(s.blogs, CreatedAt);
      && l.total == |s.blogs|
      && l.offset >= 0 && |l.items| == WindowLength(|s.blogs|, l.offset, l.limit)
      && (forall k :: 0 <= k < |l.items| ==> l.items[k] == ViewOf(s, sorted[l.offset + k]))
  {
    var p := VisibleTo(RoleOf(s, userId));
    var offset := IntOr(offsetQuery, parseInt, DefaultOffset);
    var limit := IntOr(limitQuery, parseInt, DefaultLimit);
    var l := GetAllBlogs(s, userId, limitQuery, offsetQuery, parseInt, fails).body;
    assert l.offset == offset && l.limit == limit && l.total == |Filter(s.blogs, p)|
        && l.items == Views(s, BlogPage(s.blogs, p, offset, limit).value) by {
      GetAllBlogsBody(s, userId, limitQuery, offsetQuery, parseInt, fails);
    }
    FilterAll(s.blogs, p);
    PageViews(s, s.blogs, p, offset, limit, l.items);
  }

  /**
   * The reply echoes the limit and offset actually used, the page is newest
   * first and at most `limit` long, and `total` does not depend on the page
   * asked for.
   */
  lemma GetAllBlogsPage(s: Snapshot, userId: Id, limitQuery: Option<string>, offsetQuery: Option<string>,
                        limitQuery': Option<string>, offsetQuery': Option<string>,
                        parseInt: string -> Option<int>, fails: bool)
    requires GetAllBlogs(s, userId, limitQuery, offsetQuery, parseInt, fails).Success?
    requires GetAllBlogs(s, userId, limitQuery', offsetQuery', parseInt, fails).Success?
    ensures var l := GetAllBlogs(s, userId, limitQuery, offsetQuery, parseInt, fails).body;
      && l.limit == IntOr(limitQuery, parseInt, DefaultLimit) && l.offset == IntOr(offsetQuery, parseInt, DefaultOffset)
      && |l.items| <= Abs(l.limit)
      && (forall i, j :: 0 <= i < j < |l.items| ==> l.items[i].createdAt >= l.items[j].createdAt)
      && l.total == GetAllBlogs(s, userId, limitQuery', offsetQuery', parseInt, fails).body.total
  {
    GetAllBlogsBody(s, userId, limitQuery, offsetQuery, parseInt, fails);
    GetAllBlogsBody(s, userId, limitQuery', offsetQuery', parseInt, fails);
    var p := VisibleTo(RoleOf(s, userId));
    var offset := IntOr(offsetQuery, parseInt, DefaultOffset);
    var limit := IntOr(limitQuery, parseInt, DefaultLimit);
    BlogPageShape(s.blogs, p, offset, limit);
  }

  /**
   * The listed page is the run of the visible blogs, newest first, that
   * starts `offset` places in and holds `limit` of them or all that are left.
   */
  lemma GetAllBlogsContents(s: Snapshot, userId: Id, limitQuery: Option<string>, offsetQuery: Option<string>,
                            parseInt: string -> Option<int>, fails: bool)
    requires GetAllBlogs(s, userId, limitQuery, offsetQuery, parseInt, fails).Success?
    ensures var l := GetAllBlogs(s, userId, limitQuery, offsetQuery, parseInt, fails).body;
      var sorted := SortDesc(Filter(s.blogs, VisibleTo(RoleOf(s, userId))), CreatedAt);
      && l.offset >= 0 && |l.items| == WindowLength(|sorted|, l.offset, l.limit)
      && (forall k :: 0 <= k < |l.items| ==> l.items[k] == ViewOf(s, sorted[l.offset + k]))
  {
    var p := VisibleTo(RoleOf(s, userId));
    var offset := IntOr(offsetQuery, parseInt, DefaultOffset);
    var limit := IntOr(limitQuery, parseInt, DefaultLimit);
    var sorted := SortDesc(Filter(s.blogs, p), CreatedAt);
    var l := GetAllBlogs(s, userId, limitQuery, offsetQuery, parseInt, fails).body;
    assert l.offset == offset && l.limit == limit && l.items == Views(s, BlogPage(s.blogs, p, offset, limit).value) by {
      GetAllBlogsBody(s, userId, limitQuery, offsetQuery, parseInt, fails);
    }
    PageViews(s, s.blogs, p, offset, limit, l.items);
  }

  /** A listing `getAllBlogs` sends is the window it asked for, seen through `ViewOf`. */
  lemma GetAllBlogsBody(s: Snapshot, userId: Id, limitQuery: Option<string>, offsetQuery: Option<string>,
                        parseInt: string -> Option<int>, fails: bool)
    requires GetAllBlogs(s, userId, limitQuery, offsetQuery, parseInt, fails).Success?
    ensures var p := VisibleTo(RoleOf(s, userId));
      var offset := IntOr(offsetQuery, parseInt, DefaultOffset);
      var limit := IntOr(limitQuery, parseInt, DefaultLimit);
      var l := GetAllBlogs(s, userId, limitQuery, offsetQuery, parseInt, fails).body;
      && BlogPage(s.blogs, p, offset, limit).Some?
      && l.limit == limit && l.offset == offset && l.total == |Filter(s.blogs, p)|
      && l.items == Views(s, BlogPage(s.blogs, p, offset, limit).value)
  {
  }

  /**
   * `getBlogsByUser`: the blogs of the author in the path, with the same
   * viewer filter, count and page as `getAllBlogs`.
   */
  function GetBlogsByUser(s: Snapshot, currentUserId: Id, author: Id, limitQuery: Option<string>, offsetQuery: Option<string>,
                          parseInt: string -> Option<int>, fails: bool): (r: Reply<Listing<BlogView>>)
    ensures r.Failure? ==> r == Failure(500, ServerError, ServerErrorMessage)
    ensures r.Success? <==> !fails && IntOr(offsetQuery, parseInt, DefaultOffset) >= 0
  {
    var limit := IntOr(limitQuery, parseInt, DefaultLimit);
    var offset := IntOr(offsetQuery, parseInt, DefaultOffset);
    var role := RoleOf(s, currentUserId);
    var p := ByAuthorVisibleTo(author, role);
    match BlogPage(s.blogs, p, offset, limit)
    case None => Failure(500, ServerError, ServerErrorMessage)
    case Some(page) =>
      if fails then Failure(500, ServerError, ServerErrorMessage)
      else Success(200, Listing(limit, offset, |Filter(s.blogs, p)|, Views(s, page)))
  }

  /**
   * Every listed blog is by the requested author and visible to the viewer,
   * the page is newest first and at most `limit` long, and `total` counts
   * every such blog.
   */
  lemma GetBlogsByUserShape(s: Snapshot, currentUserId: Id, author: Id, limitQuery: Option<string>, offsetQuery: Option<string>,
                            parseInt: string -> Option<int>, fails: bool)
    requires GetBlogsByUser(s, currentUserId, author, limitQuery, offsetQuery, parseInt, fails).Success?
    ensures var l := GetBlogsByUser(s, currentUserId, author, limitQuery, offsetQuery, parseInt, fails).body;
      var role := RoleOf(s, currentUserId);
      && (forall k :: 0 <= k < |l.items| ==> l.items[k] in Views(s, BlogsBy(s.blogs, author)))
      && (PublishedOnly(role) ==> forall k :: 0 <= k < |l.items| ==> l.items[k].status == Published)
      && (forall i, j :: 0 <= i < j < |l.items| ==> l.items[i].createdAt >= l.items[j].createdAt)
      && |l.items| <= Abs(l.limit)
      && l.total == |Filter(s.blogs, ByAuthorVisibleTo(author, role))|
  {
    var role := RoleOf(s, currentUserId);
    var p := ByAuthorVisibleTo(author, role);
    var offset := IntOr(offsetQuery, parseInt, DefaultOffset);
    var limit := IntOr(limitQuery, parseInt, DefaultLimit);
    BlogPageShape(s.blogs, p, offset, limit);
    var page := BlogPage(s.blogs, p, offset, limit).value;
    var l := GetBlogsByUser(s, currentUserId, author, limitQuery, offsetQuery, parseInt, fails).body;
    ViewsOfAuthorBlogs(s, author, page, l.items);
  }

  /**
   * The listed page is the run of the author's visible blogs, newest first,
   * that starts `offset` places in and holds `limit` of them or all that
   * are left.
   */
  lemma GetBlogsByUserPage(s: Snapshot, currentUserId: Id, author: Id, limitQuery: Option<string>, offsetQuery: Option<string>,
                           parseInt: string -> Option<int>, fails: bool)
    requires GetBlogsByUser(s, currentUserId, author, limitQuery, offsetQuery, parseInt, fails).Success?
    ensures var l := GetBlogsByUser(s, currentUserId, author, limitQuery, offsetQuery, parseInt, fails).body;
      var sorted := SortDesc(Filter(s.blogs, ByAuthorVisibleTo(author, RoleOf(s, currentUserId))), CreatedAt);
      && l.limit == IntOr(limitQuery, parseInt, DefaultLimit) && l.offset == IntOr(offsetQuery, parseInt, DefaultOffset)
      && l.offset >= 0 && |l.items| == WindowLength(|sorted|, l.offset, l.limit)
      && (forall k :: 0 <= k < |l.items| ==> l.items[k] == ViewOf(s, sorted[l.offset + k]))
  {
    var p := ByAuthorVisibleTo(author, RoleOf(s, currentUserId));
    var offset := IntOr(offsetQuery, parseInt, DefaultOffset);
    var limit := IntOr(limitQuery, parseInt, DefaultLimit);
    var l := GetBlogsByUser(s, currentUserId, author, limitQuery, offsetQuery, parseInt, fails).body;
    assert l.offset == offset && l.limit == limit && l.items == Views(s, BlogPage(s.blogs, p, offset, limit).value) by {
      GetBlogsByUserBody(s, currentUserId, author, limitQuery, offsetQuery, parseInt, fails);
    }
    PageViews(s, s.blogs, p, offset, limit, l.items);
  }

  /** A listing `getBlogsByUser` sends is the window it asked for, seen through `ViewOf`. */
  lemma GetBlogsByUserBody(s: Snapshot, currentUserId: Id, author: Id, limitQuery: Option<string>, offsetQuery: Option<string>,
                           parseInt: string -> Option<int>, fails: bool)
    requires GetBlogsByUser(s, currentUserId, author, limitQuery, offsetQuery, parseInt, fails).Success?
    ensures var p := ByAuthorVisibleTo(author, RoleOf(s, currentUserId));
      var offset := IntOr(offsetQuery, parseInt, DefaultOffset);
      var limit := IntOr(limitQuery, parseInt, DefaultLimit);
      var l := GetBlogsByUser(s, currentUserId, author, limitQuery, offsetQuery, parseInt, fails).body;
      && BlogPage(s.blogs, p, offset, limit).Some?
      && l.limit == limit && l.offset == offset && l.total == |Filter(s.blogs, p)|
      && l.items == Views(s, BlogPage(s.blogs, p, offset, limit).value)
  {
  }

  /** Views of blogs by an author, taken from the store, are among the views of that author's blogs. */
  lemma ViewsOfAuthorBlogs(s: Snapshot, author: Id, page: seq<Blog>, items: seq<BlogView>)
    requires forall k :: 0 <= k < |page| ==> page[k] in s.blogs && page[k].author == author
    requires items == Views(s, page)
    ensures forall k :: 0 <= k < |items| ==> items[k] in Views(s, BlogsBy(s.blogs, author))
  {
    var mine := BlogsBy(s.blogs, author);
    var views := Views(s, mine);
    forall k | 0 <= k < |items| ensures items[k] in views {
      var b := page[k];
      var j :| 0 <= j < |s.blogs| && s.blogs[j] == b;
      assert b in mine;
      var m :| 0 <= m < |mine| && mine[m] == b;
      assert views[m] == ViewOf(s, b);
    }
  }

  /**
   * `getBlogBySlug`: no blog with the slug is a 404, checked first; a buyer
   * or seller asking for a draft is refused with a 403; otherwise the blog
   * is returned, so admins see drafts and everyone sees published blogs.
   */
  function GetBlogBySlug(s: Snapshot, userId: Id, slug: string, fails: bool): (r: Reply<BlogView>)
    ensures fails ==> r == Failure(500, ServerError, ServerErrorMessage)
    ensures !fails && FindBlogBySlug(s, slug).None? ==> r == Failure(404, NotFound, NoBlogMessage)
    ensures !fails && FindBlogBySlug(s, slug).Some? ==>
      var b := FindBlogBySlug(s, slug).value;
      && (PublishedOnly(RoleOf(s, userId)) && b.status == Draft ==> r == Failure(403, AuthorizationError, AccessDeniedMessage))
      && (Visible(RoleOf(s, userId), b) ==> r == Success(200, ViewOf(s, b)))
  {
    if fails then Failure(500, ServerError, ServerErrorMessage)
    else match FindBlogBySlug(s, slug)
      case None => Failure(404, NotFound, NoBlogMessage)
      case Some(b) =>
        if PublishedOnly(RoleOf(s, userId)) && b.status == Draft then Failure(403, AuthorizationError, AccessDeniedMessage)
        else Success(200, ViewOf(s, b))
  }

  /** A blog the slug lookup returns is shown exactly when the viewer may see it. */
  lemma GetBlogBySlugShown(s: Snapshot, userId: Id, slug: string)
    ensures GetBlogBySlug(s, userId, slug, false).Success? <==>
      FindBlogBySlug(s, slug).Some? && Visible(RoleOf(s, userId), FindBlogBySlug(s, slug).value)
  {
  }

  /** The blog `getBlogBySlug` shows has the requested slug; with unique slugs it is the one blog carrying it. */
  lemma GetBlogBySlugUnique(s: Snapshot, userId: Id, slug: string, k: nat)
    requires WellFormed(s) && k < |s.blogs| && s.blogs[k].slug == slug
    requires Visible(RoleOf(s, userId), s.blogs[k])
    ensures GetBlogBySlug(s, userId, slug, false) == Success(200, ViewOf(s, s.blogs[k]))
  {
    var b := FindBlogBySlug(s, slug).value;
    var j :| 0 <= j < |s.blogs| && s.blogs[j] == b;
    assert BlogSlug(s.blogs[j]) == BlogSlug(s.blogs[k]);
  }

  /**
   * `getAllUser`: `total` is the number of users; the page is store order
   * (no sort) with `offset` skipped and at most `limit` taken. The password
   * path is never selected.
   */
  function GetAllUser(s: Snapshot, limitQuery: Option<string>, offsetQuery: Option<string>,
                      parseInt: string -> Option<int>, fails: bool): (r: Reply<Listing<PublicUser>>)
    ensures r.Failure? ==> r == Failure(500, ServerError, ServerErrorMessage)
    ensures r.Success? <==> !fails && IntOr(offsetQuery, parseInt, DefaultOffset) >= 0
  {
    var limit := IntOr(limitQuery, parseInt, DefaultLimit);
    var offset := IntOr(offsetQuery, parseInt, DefaultOffset);
    match Window(s.users, offset, limit)
    case None => Failure(500, ServerError, ServerErrorMessage)
    case Some(page) =>
      if fails then Failure(500, ServerError, ServerErrorMessage)
      else Success(200, Listing(limit, offset, |s.users|, MapSeq(page, Public)))
  }

  /** The user page is the run of users starting at `offset`, in store order, and `total` is all users. */
  lemma GetAllUserPage(s: Snapshot, limitQuery: Option<string>, offsetQuery: Option<string>,
                       parseInt: string -> Option<int>, fails: bool)
    requires GetAllUser(s, limitQuery, offsetQuery, parseInt, fails).Success?
    ensures var l := GetAllUser(s, limitQuery, offsetQuery, parseInt, fails).body;
      && l.total == |s.users|
      && l.limit == IntOr(limitQuery, parseInt, DefaultLimit) && l.offset == IntOr(offsetQuery, parseInt, DefaultOffset)
      && l.offset >= 0 && |l.items| <= Abs(l.limit)
      && |l.items| == (if l.offset >= |s.users| then 0 else Min(Abs(l.limit), |s.users| - l.offset))
      && forall k :: 0 <= k < |l.items| ==> l.items[k] == Public(s.users[l.offset + k])
  {
  }

  /** With no query values, the defaults 20 and 0 are used: the first twenty users. */
  lemma GetAllUserDefaults(s: Snapshot, parseInt: string -> Option<int>)
    ensures var r := GetAllUser(s, None, None, parseInt, false);
      r.Success? && r.body.limit == 20 && r.body.offset == 0 && r.body.items == MapSeq(s.users[..Min(20, |s.users|)], Public)
  {
    var r := GetAllUser(s, None, None, parseInt, false);
    var page := Page(s.users, 0, 20);
    assert page == s.users[..Min(20, |s.users|)];
  }
}
