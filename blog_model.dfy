/**
 * The `Blog` model: its status values, banner, counters and their defaults,
 * the schema's constraints, the view listings return, and the document with
 * its pre-validate hook that derives a missing slug from the title.
 */
module BlogModel {
  import opened Wrappers
  import opened Text
  import opened UserModel

  datatype Status = Draft | Published

  function StatusName(s: Status): string {
    match s
    case Draft => "draft"
    case Published => "published"
  }

  const StatusNames: seq<string> := ["draft", "published"]
  const DefaultStatus: string := "draft"
  const MaxTitleLength: nat := 180

  /** The `enum` of the `status` path. */
  function ParseStatus(s: string): (r: Option<Status>)
    ensures r.Some? <==> s in StatusNames
    ensures r.Some? ==> StatusName(r.value) == s
  {
    if s == "draft" then Some(Draft)
    else if s == "published" then Some(Published)
    else None
  }

  datatype Banner = Banner(publicId: string, url: string, width: int, height: int)

  /** A stored blog. */
  datatype Blog = Blog(
    id: Id,
    title: string,
    slug: string,
    content: string,
    banner: Banner,
    author: Id,
    viewsCount: int,
    likesCount: int,
    commentsCount: int,
    status: Status,
    createdAt: int)

  /** The banner as listings show it: `select('-banner.publicId')`. */
  datatype BannerView = BannerView(url: string, width: int, height: int)

  /** The author as `populate('author', '-createdAt -updatedAt -__v')` shows it (the password stays unselected). */
  datatype AuthorView = AuthorView(id: Id, username: string, email: string, role: Role, firstName: Option<string>, lastName: Option<string>)

  /** A blog as the read endpoints return it; the author is `null` when that user no longer exists. */
  datatype BlogView = BlogView(
    id: Id,
    title: string,
    slug: string,
    content: string,
    banner: BannerView,
    author: Option<AuthorView>,
    viewsCount: int,
    likesCount: int,
    commentsCount: int,
    status: Status,
    createdAt: int)

  function AuthorViewOf(u: User): AuthorView {
    AuthorView(u.id, u.username, u.email, u.role, u.firstName, u.lastName)
  }

  /** The paths of a blog document that the schema validates and the hook reads. */
  datatype BlogFields = BlogFields(title: string, slug: string, content: string, banner: Option<Banner>, status: string)

  /** All four banner paths are `required`: both strings non-empty (the two numbers are always present here). */
  predicate BannerComplete(b: Option<Banner>) {
    b.Some? && b.value.publicId != "" && b.value.url != ""
  }

  /** The schema: title, slug and content `required`, title at most 180 UTF-16 units long, a complete banner, status one of the two names. */
  predicate BlogConforms(f: BlogFields) {
    && f.title != "" && Utf16Length(f.title) <= MaxTitleLength
    && f.slug != ""
    && f.content != ""
    && BannerComplete(f.banner)
    && ParseStatus(f.status).Some?
  }

  function BlogFieldsOf(b: Blog): BlogFields {
    BlogFields(b.title, b.slug, b.content, Some(b.banner), StatusName(b.status))
  }

  /** The pre-validate hook on values: a slug is derived only when there is a title and no slug. */
  function SlugAfterHook(title: string, slug: string, genSlug: string -> string): (r: string)
    ensures slug != "" ==> r == slug
    ensures title == "" ==> r == slug
    ensures title != "" && slug == "" ==> r == genSlug(title)
  {
    if title != "" && slug == "" then genSlug(title) else slug
  }

  /** A blog document's state as `save()` sees it. */
  datatype BlogDraft = BlogDraft(
    id: Id,
    author: Id,
    createdAt: int,
    isNew: bool,
    fields: BlogFields,
    viewsCount: int,
    likesCount: int,
    commentsCount: int)

  /** The stored blog a conforming document becomes. */
  function BlogOf(d: BlogDraft): (b: Blog)
    requires BlogConforms(d.fields)
    ensures BlogFieldsOf(b) == d.fields
    ensures b.id == d.id && b.author == d.author && b.createdAt == d.createdAt
    ensures b.viewsCount == d.viewsCount && b.likesCount == d.likesCount && b.commentsCount == d.commentsCount
  {
    var f := d.fields;
    Blog(d.id, f.title, f.slug, f.content, f.banner.value, d.author, d.viewsCount, d.likesCount, d.commentsCount,
         ParseStatus(f.status).value, d.createdAt)
  }

  /** Storing the paths of a stored blog back gives the same blog. */
  lemma BlogOfLoaded(b: Blog)
    ensures BlogConforms(BlogFieldsOf(b)) ==>
      BlogOf(BlogDraft(b.id, b.author, b.createdAt, false, BlogFieldsOf(b), b.viewsCount, b.likesCount, b.commentsCount)) == b
  {
  }

  /** A blog document held by a controller. */
  class BlogDocument {
    const id: Id
    const author: Id
    const createdAt: int
    const isNew: bool
    var title: string
    var slug: string
    var content: string
    var banner: Option<Banner>
    var status: string
    var viewsCount: int
    var likesCount: int
    var commentsCount: int

    function Fields(): BlogFields
      reads this
    {
      BlogFields(title, slug, content, banner, status)
    }

    function Draft(): BlogDraft
      reads this
    {
      BlogDraft(id, author, createdAt, isNew, Fields(), viewsCount, likesCount, commentsCount)
    }

    /** `new Blog({ title, content, banner, status, author })`: no slug yet, counters 0, an omitted status `draft`. */
    constructor Create(id: Id, title: string, content: string, banner: Option<Banner>, status: Option<string>, author: Id, now: int)
      ensures this.id == id && this.author == author && this.createdAt == now && isNew
      ensures Fields() == BlogFields(title, "", content, banner, status.GetOr(DefaultStatus))
      ensures viewsCount == 0 && likesCount == 0 && commentsCount == 0
    {
      this.id := id;
      this.author := author;
      this.createdAt := now;
      this.isNew := true;
      this.title := title;
      this.slug := "";
      this.content := content;
      this.banner := banner;
      this.status := status.GetOr(DefaultStatus);
      this.viewsCount := 0;
      this.likesCount := 0;
      this.commentsCount := 0;
    }

    /** A document hydrated from a stored blog. */
    constructor Load(b: Blog)
      ensures id == b.id && author == b.author && createdAt == b.createdAt && !isNew
      ensures Fields() == BlogFieldsOf(b)
      ensures viewsCount == b.viewsCount && likesCount == b.likesCount && commentsCount == b.commentsCount
    {
      this.id := b.id;
      this.author := b.author;
      this.createdAt := b.createdAt;
      this.isNew := false;
      this.title := b.title;
      this.slug := b.slug;
      this.content := b.content;
      this.banner := Some(b.banner);
      this.status := StatusName(b.status);
      this.viewsCount := b.viewsCount;
      this.likesCount := b.likesCount;
      this.commentsCount := b.commentsCount;
    }

    /** The pre-validate hook: `if (this.title && !this.slug) this.slug = genSlug(this.title)`. */
    method DeriveSlugHook(genSlug: string -> string)
      modifies this`slug
      ensures slug == SlugAfterHook(title, old(slug), genSlug)
    {
      if title != "" && slug == "" {
        slug := genSlug(title);
      }
    }
  }

  /** A loaded blog keeps its stored slug through the hook: an existing slug is never overwritten. */
  lemma StoredSlugKept(b: Blog, genSlug: string -> string)
    requires BlogConforms(BlogFieldsOf(b))
    ensures SlugAfterHook(b.title, b.slug, genSlug) == b.slug
  {
  }
}
