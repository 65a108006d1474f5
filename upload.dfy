/**
 * The `uploadBlogBanner(method)` middleware: the guards on the uploaded file,
 * the hand-off to the image host, and the mapping of what the host answers
 * onto either `next()` with `req.body.banner` set, or an error response.
 * The image host is a function-typed parameter; the only part of the store it
 * reads is the banner `publicId` of the blog being replaced.
 */
module Upload {
  import opened Wrappers
  import opened Text
  import opened Http
  import opened BlogModel
  import opened Store

  /** The two ways the middleware is mounted: on create and on update. */
  datatype UploadMethod = Post | Put

  /** The file multer attached to the request: its size in bytes and its content. */
  datatype File = File(size: nat, buffer: seq<bv8>)

  /** What the image host reports for a stored image. */
  datatype UploadData = UploadData(publicId: string, secureUrl: string, width: int, height: int)

  /** An error the image host throws: an HTTP status, an error name and a message. */
  datatype UploadError = UploadError(httpCode: nat, name: string, message: string)

  /** One call to the image host: it resolves (possibly to nothing) or throws. */
  datatype UploadResult = Resolved(data: Option<UploadData>) | Thrown(error: UploadError)

  /** Two mebibytes, the largest accepted banner. */
  const MaxFileSize: nat := 1024 * 1024 * 2

  /** The folder prefix the image host puts in front of every public id it issues. */
  const FolderPrefix: string := "ecommerce-api/"

  const BannerRequiredMessage: string := "Blog banner is required"
  const FileTooLargeMessage: string := "File size must be less than 2MB"

  /**
   * The public id to overwrite: the old banner's id with its first folder
   * prefix removed, if the path names a blog that exists. `blogId` is the
   * route's `:blogId` parameter; on a route without one it is `None`, and
   * `Blog.findById(undefined)` finds nothing.
   */
  function ReplacedPublicId(s: Snapshot, blogId: Option<Id>): (r: Option<string>)
    ensures r.Some? <==> blogId.Some? && FindBlog(s, blogId.value).Some?
    ensures blogId.None? ==> r.None?
  {
    match blogId
    case None => None
    case Some(id) =>
      match FindBlog(s, id)
      case None => None
      case Some(b) => Some(ReplaceFirst(b.banner.publicId, FolderPrefix, ""))
  }

  /** A banner id the host issued under its folder is passed back without the folder. */
  lemma ReplacedPublicIdDropsFolder(s: Snapshot, blogId: Id, rest: string)
    requires FindBlog(s, blogId).Some? && FindBlog(s, blogId).value.banner.publicId == FolderPrefix + rest
    ensures ReplacedPublicId(s, Some(blogId)) == Some(rest)
  {
    ReplaceLeading(FolderPrefix, rest);
  }

  /**
   * What the middleware does with the image host's answer: an empty answer
   * is a 500, a thrown error keeps its status and message and is a
   * validation error exactly when its status is below 500, and a stored
   * image becomes the body's new banner.
   */
  function UploadReply(res: UploadResult): (r: Step<Option<Banner>>)
    ensures r.Next? <==> res.Resolved? && res.data.Some?
    ensures r.Next? ==>
      && r.ctx.Some? && r.ctx.value.publicId == res.data.value.publicId
      && r.ctx.value.url == res.data.value.secureUrl
      && r.ctx.value.width == res.data.value.width && r.ctx.value.height == res.data.value.height
    ensures res == Resolved(None) ==> r == Stop(500, ServerError, ServerErrorMessageShort)
    ensures res.Thrown? ==>
      && r.Stop? && r.status == res.error.httpCode && r.message == res.error.message
      && (r.code == ValidationError <==> res.error.httpCode < 500)
      && (res.error.httpCode >= 500 ==> r.code == ErrorName(res.error.name))
  {
    match res
    case Resolved(None) => Stop(500, ServerError, ServerErrorMessageShort)
    case Resolved(Some(d)) => Next(Some(Banner(d.publicId, d.secureUrl, d.width, d.height)))
    case Thrown(e) => Stop(e.httpCode, if e.httpCode < 500 then ValidationError else ErrorName(e.name), e.message)
  }

  /**
   * `uploadBlogBanner(method)` on one request. `file` is what multer attached,
   * `body` the request body's current `banner`, `blogId` the route's
   * `:blogId` parameter (`None` on the create route, which has none), and
   * `upload` the image host. The result is `next()` with the body's banner,
   * or the error response.
   */
  function UploadBlogBanner(
    mode: UploadMethod, file: Option<File>, body: Option<Banner>,
    s: Snapshot, blogId: Option<Id>, upload: (seq<bv8>, Option<string>) -> UploadResult): (r: Step<Option<Banner>>)
    ensures mode == Put && file.None? ==> r == Next(body)
    ensures mode == Post && file.None? ==> r == Stop(400, ValidationError, BannerRequiredMessage)
    ensures file.Some? && file.value.size > MaxFileSize ==> r == Stop(413, ValidationError, FileTooLargeMessage)
    ensures file.Some? && file.value.size <= MaxFileSize ==>
      r == UploadReply(upload(file.value.buffer, ReplacedPublicId(s, blogId)))
    ensures file.Some? && file.value.size <= MaxFileSize && blogId.None? ==>
      r == UploadReply(upload(file.value.buffer, None))
  {
    if mode == Put && file.None? then Next(body)
    else if file.None? then Stop(400, ValidationError, BannerRequiredMessage)
    else if file.value.size > MaxFileSize then Stop(413, ValidationError, FileTooLargeMessage)
    else UploadReply(upload(file.value.buffer, ReplacedPublicId(s, blogId)))
  }

  /**
   * The body's banner changes only after a file within the limit was stored
   * by the host, and then it is exactly the stored image.
   */
  lemma UploadSetsBannerOnlyFromHost(
    mode: UploadMethod, file: Option<File>, body: Option<Banner>,
    s: Snapshot, blogId: Option<Id>, upload: (seq<bv8>, Option<string>) -> UploadResult)
    requires UploadBlogBanner(mode, file, body, s, blogId, upload).Next?
    ensures var r := UploadBlogBanner(mode, file, body, s, blogId, upload);
      (mode == Put && file.None? && r.ctx == body) ||
      (file.Some? && file.value.size <= MaxFileSize &&
       (var res := upload(file.value.buffer, ReplacedPublicId(s, blogId));
        res.Resolved? && res.data.Some? &&
        r.ctx == Some(Banner(res.data.value.publicId, res.data.value.secureUrl, res.data.value.width, res.data.value.height))))
  {
  }

  /** The limit is inclusive: a file of exactly 2 MiB reaches the host, one byte more is refused with 413. */
  lemma SizeLimitBoundary(
    mode: UploadMethod, buffer: seq<bv8>, body: Option<Banner>,
    s: Snapshot, blogId: Option<Id>, upload: (seq<bv8>, Option<string>) -> UploadResult)
    ensures UploadBlogBanner(mode, Some(File(MaxFileSize, buffer)), body, s, blogId, upload) ==
      UploadReply(upload(buffer, ReplacedPublicId(s, blogId)))
    ensures UploadBlogBanner(mode, Some(File(MaxFileSize + 1, buffer)), body, s, blogId, upload) ==
      Stop(413, ValidationError, FileTooLargeMessage)
  {
  }

  /**
   * On the create route (no `:blogId`) the host is never asked to overwrite
   * an existing image: it gets no public id, whatever blogs are stored.
   */
  lemma CreateRouteSendsNoPublicId(
    file: File, body: Option<Banner>, s: Snapshot, upload: (seq<bv8>, Option<string>) -> UploadResult)
    requires file.size <= MaxFileSize
    ensures UploadBlogBanner(Post, Some(file), body, s, None, upload) == UploadReply(upload(file.buffer, None))
  {
  }
}
