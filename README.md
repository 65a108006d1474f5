# A verified model of the blog API's version-1 core

The system is an Express and Mongoose REST API for a blog. Users register and
log in with an email and a password. They get a short-lived access token in the
response and a long-lived refresh token in an httpOnly cookie. Every other
route sits behind two middlewares: `authenticate`, which checks the bearer
token, and `authorize`, which checks the stored role. Admins create, update
and delete blogs, whose banner images live on an image host. Buyers and sellers
read published blogs; admins also read drafts. Any user can comment on a blog
and like it.

This project restates that core in Dafny and proves properties of it:

- **Data and store.** Users, blogs, comments, likes and refresh tokens are
  datatypes over one store snapshot (`store.dfy`). The collections the
  controllers change in place are `seq` fields of the `Store.Database`
  class. Mongoose documents that are loaded, assigned field by field and
  saved are the classes `UserModel.UserDocument` and
  `BlogModel.BlogDocument`, with their pre-save and pre-validate hooks.
- **Gates.** `authenticate` and `authorize` are pure decisions (`gate.dfy`).
  The routers are data, and `Routes.RunChain` runs a chain with those two
  gates, so who can reach each controller is proved (`routes.dfy`).
- **Validation.** express-validator's `checkSchema` runs each field's chain in
  order. Every failure is recorded, `trim` rewrites what later steps and later
  fields see, and `validationError` answers 400 with the first error of each
  field. This is `validation.dfy`. Every schema of the API is written out in
  `schemas.dfy`, with a lemma saying exactly which requests pass it.
- **Read-only controllers.** `refreshToken` and the listings (`getAllBlogs`,
  `getBlogsByUser`, `getBlogBySlug`, `getAllUser`, `getCommentsByBlog`) are
  functions of a snapshot.
- **Writing controllers.** `register`, `login`, create/update/delete blog,
  comment, delete comment, like, update-current-user and delete-user are
  methods on `Store.Database`. Each is proved against a specification
  function of the old snapshot. Lemmas about each specification give:
  - the error cases and their order;
  - the exact new state on success;
  - the partial writes left when a later awaited call throws;
  - the preservation of the store invariant `Store.Consistent`: ids, usernames,
    emails and slugs unique, and `commentsCount` and `likesCount` equal to the
    number of comments and likes.
- **Upload and CORS.** The banner-upload middleware is in `upload.dfy`. The
  CORS origin callback and its configuration defaults are in `server.dfy`.

**Calls into code the model cannot see.** These are function-typed parameters:
JWT signing and verification, bcrypt's `hash` and `compare`, DOMPurify's
`sanitize`, the slug generator, validator.js's `isEmail`, `isJWT` and
`isMongoId`, `parseInt`, and the image host.

**Values from outside.** The clock is a `now` parameter. The generated username
is a `username` parameter. `NODE_ENV` and the whitelist strings are parameters
too.

**Failures.** A failing awaited call is written two ways:
- a `failAt` number names which call throws;
- a `fails` flag is used where a handler only reads.

The store queries inside the custom validators are the exception: they
cannot fail in this model (see "## Left out").

Ids are natural numbers that the store issues from a counter.

## Model

| member | source | states |
|---|---|---|
| Gate.BearerTokenIsSecondWord | src/middlewares/authenticate.ts:41-42 | the token is the part after `"Bearer "` up to the next space, with or without further parts after it |
| Gate.Authenticate | src/middlewares/authenticate.ts:29-77 | a missing header or one without the `"Bearer "` prefix is a 401 before anything is verified; a verified token passes its `userId` on; an expired token is a 401 "expired" before the generic invalid-token 401; any other error is a 500; it goes on exactly when the header is well formed and the token verifies; no store is an input |
| Gate.AuthenticateRefusals | src/middlewares/authenticate.ts:33-75 | every refusal is a 401 AuthenticationError or a 500 ServerError |
| Gate.NotBeforeIsInvalid | src/middlewares/authenticate.ts:53-67 | a `NotBeforeError` (a `JsonWebTokenError` that is not an expiry) is reported as an invalid token, not as an expired one |
| Gate.Authorize | src/middlewares/authorize.ts:23-58 | a store failure is a 500; a missing user is a 404, checked before the role; a role outside `roles` is a 403; it goes on, with the same user id, exactly when the stored role is in `roles` |
| Gate.AuthorizeReadsOnlyRole | src/middlewares/authorize.ts:25-28 | two stores that give the user the same role give the same decision |
| Gate.AuthorizeMonotone | src/middlewares/authorize.ts:38-47 | admitting more roles never refuses a request that was admitted |
| Auth.AdminGateStricter | src/controllers/v1/auth/register.ts:37 | the corrected admin gate (whitelist entries) refuses every email the written gate (substring test) refuses |
| Auth.AdminGateAsWrittenAdmitsPart | src/controllers/v1/auth/register.ts:37 | with `alice@example.com` whitelisted, the written gate lets `ice@example.com` register as admin and the corrected gate refuses it |
| Auth.RegisterAdminGate | src/controllers/v1/auth/register.ts:36-47 | an admin registration with an email that is not a substring of the whitelist string (the `includes` test as written) is a 403 that leaves the store untouched and sets no cookie |
| Auth.RegisterAdmitsWhitelistPiece | src/controllers/v1/auth/register.ts:36-47 | as written, with `alice@example.com` whitelisted, an admin registration for `ice@example.com` is not refused by the gate |
| Auth.RegisterSuccess | src/controllers/v1/auth/register.ts:49-92 | a successful registration appends exactly one user (generated username, given email, hashed password, given role or `buyer`) and exactly one refresh token for that user, touches nothing else, replies 201 with username, email, role and access token but no password, and sets the stored refresh token as the cookie |
| Auth.RegisterTokenFailureKeepsUser | src/controllers/v1/auth/register.ts:53-68 | when the token insert throws the reply is a 500, but the user inserted before it stays, with no token |
| Auth.RegisterKeepsConsistent | src/controllers/v1/auth/register.ts:33-108 | every registration outcome, failures included, keeps the store's ids, references and counters consistent |
| Auth.Register | src/controllers/v1/auth/register.ts:33-108 | the controller on the store: its new state, reply and cookie are those of the registration specification, whose admin gate is the substring test as written |
| Auth.LoginTokens | src/controllers/v1/auth/login.ts:31-92 | an unknown email is a 404 with no write; a success appends exactly one token for the user with that email and keeps every earlier token; users, blogs, comments and likes never change; success replies 200 with the user's username, email, role and access token and sets the refresh cookie; success happens exactly when the email is known and no store operation throws |
| Auth.LoginKeepsConsistent | src/controllers/v1/auth/login.ts:31-92 | every login outcome keeps the store consistent |
| Auth.Login | src/controllers/v1/auth/login.ts:31-92 | the controller on the store: its new state, reply and cookie are those of the login specification |
| Auth.RefreshToken | src/controllers/v1/auth/refresh-token.ts:28-77 | an unstored token is a 401 before its signature is checked; a stored token that verifies gives 200 with an access token for its `userId`; an expired one is a 401 "please login again" before the generic invalid-token 401; other errors are a 500; it succeeds exactly when the token is stored and verifies; the result is a reply only, so no path writes to the store |
| Auth.RefreshIgnoresSignatureOfUnknown | src/controllers/v1/auth/refresh-token.ts:32-40 | for an unstored token the verifier makes no difference to the reply |
| Auth.LoginTokenIsExchangeable | src/controllers/v1/auth/login.ts:50-67 | the refresh token a successful login sets as its cookie is one the store now holds |
| Http.RefreshCookie | src/controllers/v1/auth/register.ts:75-79 | the `refreshToken` cookie holds the token, is httpOnly and sameSite strict, and is secure exactly when `NODE_ENV` is `production` (login sets the same cookie, src/controllers/v1/auth/login.ts:63-67) |
| UserModel.ParseRole | src/models/user.ts:46-52 | the role `enum` accepts exactly `admin`, `buyer` and `seller`, and maps each back to its own name |
| UserModel.ToUser | src/models/user.ts:27-65 | a validated user document becomes a stored user with the same paths and a role whose name is the document's role |
| UserModel.ToUserFieldsOf | src/models/user.ts:27-65 | storing the paths of a stored, conforming user back gives the same user |
| UserModel.UserDocument.Create | src/models/user.ts:46-54 | a new user document takes the given paths, an omitted role defaults to `buyer`, and its password counts as modified |
| UserModel.UserDocument.Load | src/models/user.ts:27-65 | a document loaded from a stored user holds its paths, is not new and has no modified password |
| UserModel.UserDocument.SetPassword | src/models/user.ts:68 | assigning a password sets it, and marks it modified only when the value changes |
| UserModel.UserDocument.HashPasswordHook | src/models/user.ts:67-74 | the pre-save hook replaces a modified password by its hash and leaves an unmodified one exactly as it was |
| BlogModel.ParseStatus | src/models/blog.ts:92-99 | the status `enum` accepts exactly `draft` and `published` |
| BlogModel.SlugAfterHook | src/models/blog.ts:104-109 | an existing slug is kept, a blog without a title keeps its slug, and only a titled blog without a slug gets one derived from its title |
| BlogModel.BlogOf | src/models/blog.ts:41-102 | a conforming blog document becomes a stored blog with the same paths, author, counters and creation time |
| BlogModel.BlogOfLoaded | src/models/blog.ts:41-102 | storing the paths of a stored, conforming blog back gives the same blog |
| BlogModel.BlogDocument.Create | src/models/blog.ts:80-99 | a new blog document has no slug yet, all three counters 0, and an omitted status `draft` |
| BlogModel.BlogDocument.Load | src/models/blog.ts:41-102 | a document loaded from a stored blog holds its paths and counters and is not new |
| BlogModel.BlogDocument.DeriveSlugHook | src/models/blog.ts:104-109 | the pre-validate hook leaves the slug the value function describes |
| BlogModel.StoredSlugKept | src/models/blog.ts:104-109 | a loaded conforming blog keeps its stored slug through the hook |
| Store.SaveUserSpec | src/models/user.ts:27-74 | a user save writes only a document that passes the schema (username at most 20 and email at most 50 UTF-16 units long, required paths, a valid role), stores its password hashed only if it was modified, is refused by the unique indexes on id, username and email, inserts a new document and replaces a loaded one, and changes no other collection; a refused or failing save writes nothing |
| Store.SaveBlogSpec | src/models/blog.ts:41-109 | a blog save runs the slug hook first, writes only a document that passes the schema (title at most 180 UTF-16 units long, required slug and content, all banner paths, a valid status), is refused by the unique indexes on id and slug, inserts a new document and replaces a loaded one, and changes no other collection |
| Store.CreateCommentSpec | src/models/comment.ts:22-40 | a comment is created exactly when it has a blog, a user and a non-empty content of at most 1000 UTF-16 units; it is appended with a fresh id and nothing else changes |
| Store.SaveUserKeepsConsistent | src/models/user.ts:29-40 | a user save keeps ids, usernames and emails unique and below the next fresh id |
| Store.SaveBlogKeepsConsistent | src/models/blog.ts:48-52 | a blog save keeps ids and slugs unique, and keeps the counters in agreement when the document carries the stored counters |
| Store.Database.SaveUser | src/models/user.ts:67-74 | the save on the store, with the hook run on the document, leaves the state and result its value function describes |
| Store.Database.SaveBlog | src/models/blog.ts:104-109 | the save on the store, with the hook run on the document, leaves the state and result its value function describes |
| Store.FindUser | src/middlewares/authorize.ts:25-28 | `User.findById` returns a stored user with that id, and nothing exactly when no stored user has it |
| Store.FindUserByEmail | src/controllers/v1/auth/login.ts:35-38 | `User.findOne({ email })` returns a stored user with that email, and nothing exactly when no stored user has it |
| Store.FindBlog | src/controllers/v1/blog/update-blog.ts:45 | `Blog.findById` returns a stored blog with that id, and nothing exactly when no stored blog has it |
| Store.BlogIndexUnique | src/models/blog.ts:41-52 | with unique ids, `findById` finds each blog at its own position |
| Store.FindBlogBySlug | src/controllers/v1/blog/get-blog-by-slug.ts:29-33 | `Blog.findOne({ slug })` returns a stored blog with that slug, and nothing exactly when no stored blog has it |
| Store.CommentIndexUnique | src/controllers/v1/comment/delete-comment.ts:27 | with unique ids, `Comment.findById` finds each comment at its own position |
| Store.FindLike | src/controllers/v1/like/like-blog.ts:40 | `Like.findOne({ blogId, userId })` finds a like of that blog by that user, and nothing exactly when there is none |
| Store.CommentsOf | src/controllers/v1/comment/get-comments-by-blog.ts:39 | `Comment.find({ blogId })` keeps every comment of the blog and only those |
| Store.BlogsBy | src/controllers/v1/user/delete-user.ts:31 | `Blog.find({ author })` keeps every blog of the author and only those |
| Store.BlogsNotBy | src/controllers/v1/user/delete-user.ts:42 | `Blog.deleteMany({ author })` leaves every blog of another author and only those |
| Store.FreshIdUnreferenced | src/controllers/v1/blog/create-blog.ts:43-49 | in a well-formed store no comment or like refers to an id not yet issued, so a new blog starts with none |
| Store.SetCommentsCountSpec | src/controllers/v1/comment/comment-blog.ts:62-63 | saving a blog loaded with only its counter rewrites exactly that counter of exactly that blog; a failing save, or a blog gone since, writes nothing |
| Store.SetLikesCountSpec | src/controllers/v1/like/like-blog.ts:51-52 | the same for `likesCount` |
| Store.CreateLikeSpec | src/controllers/v1/like/like-blog.ts:49 | `Like.create` appends one like with the fresh id, that blog and that user, uses up an id even when it throws, and changes no other collection |
| Store.CreateTokenSpec | src/controllers/v1/auth/register.ts:65-68 | `Token.create` appends one token record with the fresh id, that token and that user, and changes no other collection |
| Store.DeleteBlogSpec | src/controllers/v1/blog/delete-blog.ts:64 | `Blog.deleteOne({ _id })` removes the first blog with that id and keeps the rest in order, is a no-op when there is none, and writes nothing when it throws |
| Store.DeleteCommentSpec | src/controllers/v1/comment/delete-comment.ts:67 | `Comment.deleteOne({ _id })` removes the first comment with that id, the rest staying in order; no match or a throw writes nothing |
| Store.DeleteUserSpec | src/controllers/v1/user/delete-user.ts:48 | `User.deleteOne({ _id })` removes the first user with that id, the rest staying in order; no match or a throw writes nothing |
| Store.DeleteBlogsBySpec | src/controllers/v1/user/delete-user.ts:42 | `Blog.deleteMany({ author })` leaves exactly the blogs of other authors and touches nothing else; a throw writes nothing |
| Store.TakeIdKeepsConsistent | src/models/comment.ts:22-40 | issuing a fresh id keeps the store consistent |
| Store.CreateTokenKeepsConsistent | src/controllers/v1/auth/login.ts:53-56 | storing a refresh token keeps the store consistent |
| Store.DeleteUserKeepsConsistent | src/controllers/v1/user/delete-user.ts:48 | removing a user keeps the store consistent: no blog, comment or like is touched |
| Store.Database.NewId | src/models/comment.ts:22-40 | a fresh id is the store's next id, and only the counter moves |
| Store.Database.SetCommentsCount | src/controllers/v1/comment/comment-blog.ts:62-63 | the save on the store leaves the state and result of its specification |
| Store.Database.SetLikesCount | src/controllers/v1/like/like-blog.ts:51-52 | the save on the store leaves the state and result of its specification |
| Store.Database.CreateComment | src/controllers/v1/comment/comment-blog.ts:55-59 | the insert on the store leaves the state and result of its specification |
| Store.Database.CreateLike | src/controllers/v1/like/like-blog.ts:49 | the insert on the store leaves the state and result of its specification |
| Store.Database.CreateToken | src/controllers/v1/auth/register.ts:65-68 | the insert on the store leaves the state and result of its specification |
| Store.Database.DeleteBlog | src/controllers/v1/blog/delete-blog.ts:64 | the delete on the store leaves the state and result of its specification |
| Store.Database.DeleteComment | src/controllers/v1/comment/delete-comment.ts:67 | the delete on the store leaves the state and result of its specification |
| Store.Database.DeleteUser | src/controllers/v1/user/delete-user.ts:48 | the delete on the store leaves the state and result of its specification |
| Store.Database.DeleteBlogsBy | src/controllers/v1/user/delete-user.ts:42 | the delete on the store leaves the state and result of its specification |
| Validation.StoreEnv | src/middlewares/validation-schemas.ts:33-41 | the custom validators' `User.exists` and `User.findOne` queries answer from the store: an email counts as registered exactly when some stored user has it, and a username as taken exactly when some stored user has it |
| Validation.StandardError | src/middlewares/validation-schemas.ts:43-58 | a standard validator records nothing when it accepts the value; otherwise it records its own message, else the field's `errorMessage`, else `Invalid value` |
| Validation.CustomError | src/middlewares/validation-schemas.ts:33-41 | a custom validator with no message of its own records nothing when its promise resolves, and otherwise the message it threw, whatever the field's message is |
| Validation.RunFromValue | src/middlewares/validation-schemas.ts:19-29 | a chain leaves the trimmed value when it has a `trim` step and the value as sent otherwise, and records at most one error per step; no step stops the chain |
| Validation.WriteBack | src/middlewares/validation-schemas.ts:19-20 | the sanitized value replaces a field that was sent, an absent field stays absent, and the other fields are untouched |
| Validation.RunField | src/middlewares/validation-schemas.ts:59-60 | an `optional` field that was not sent is skipped: no errors and no change; any other chain changes only its own field |
| Validation.Record | src/middlewares/validation-error.ts:17 | a field is recorded exactly when it has errors, and its errors are kept in the order they arose; other fields are unchanged |
| Validation.RunSchema | src/middlewares/validation-error.ts:17 | the errors name only the schema's own fields, each with a non-empty list, and sanitizing never adds or removes a request field |
| Validation.SchemaErrorsOf | src/middlewares/validation-schemas.ts:116-131 | a field's recorded errors are exactly its own chain's, run on the fields as the earlier chains left them (so the login password sees the trimmed email) |
| Validation.FieldAt | src/middlewares/validation-schemas.ts:145-216 | with distinct field names, a field's errors in a schema are those of its chain on the value the request carried, and none for an optional field that was not sent |
| Validation.ErrorsFromFields | src/middlewares/validation-error.ts:17-22 | only fields the schema names can appear in the 400 response |
| Validation.NoneRecorded | src/middlewares/validation-error.ts:19 | a schema passes exactly when none of its fields has errors |
| Validation.FirstFieldTrimmed | src/middlewares/validation-schemas.ts:117-119 | a first chain starting with `trim` leaves its field trimmed for every later chain to read |
| Validation.Mapped | src/middlewares/validation-error.ts:22 | `errors.mapped()` has one entry per failed field, and it is that field's first error |
| Validation.Decide | src/middlewares/validation-error.ts:16-27 | the request goes on exactly when no error was recorded; otherwise the 400 response carries a non-empty map of errors |
| Schemas.TakenEmailThrows | src/middlewares/validation-schemas.ts:33-41 | the register email check records `User email or password is invalid.` exactly when the address is registered |
| Schemas.UnknownEmailThrows | src/middlewares/validation-schemas.ts:91-98 | the login email check records that message exactly when the address is NOT registered |
| Schemas.WrongPasswordThrows | src/middlewares/validation-schemas.ts:116-131 | the login password check records the message exactly when no user has the body's email or bcrypt's compare rejects the password against that user's hash |
| Schemas.PasswordChecks | src/middlewares/validation-schemas.ts:43-58 | an empty password records `Password is required.`; one shorter than 8 characters, or one that lacks a lower-case letter, an upper-case letter or a digit, records the field's long password message |
| Schemas.RegisterEmailClear | src/middlewares/validation-schemas.ts:19-42 | the register email passes exactly when, trimmed, it is non-empty, at most 50 characters as `isLength` counts them, an email address and not registered yet |
| Schemas.RegisterPasswordClear | src/middlewares/validation-schemas.ts:43-58 | the register password passes exactly when, trimmed, it has at least 8 characters as `isLength` counts them and matches the pattern |
| Schemas.RoleClear | src/middlewares/validation-schemas.ts:59-68 | a role that was sent passes exactly when it is `admin`, `buyer` or `seller`; an absent role always passes |
| Schemas.RegisterAccepted | src/middlewares/validation-schemas.ts:18-69 | `POST /auth/register` passes validation exactly when the trimmed email is well formed and unregistered, the trimmed password is well formed, and a sent role is one of the three |
| Schemas.LoginEmailClear | src/middlewares/validation-schemas.ts:77-100 | the login email passes exactly when, trimmed, it is well formed and registered |
| Schemas.PasswordAfterLoginEmail | src/middlewares/validation-schemas.ts:101-134 | the login password passes exactly when, trimmed, it is well formed and matches the hash of the user with the TRIMMED email |
| Schemas.LoginAccepted | src/middlewares/validation-schemas.ts:76-135 | `POST /auth/login` passes validation exactly when email and password are well formed and the password matches the hash stored for that email |
| Schemas.LoginTellsAccountsApart | src/middlewares/validation-schemas.ts:91-98 | for well-formed credentials that do not match, the 400 response lists the email field exactly when no user has that email, so it tells registered addresses apart although both fields say `User email or password is invalid.` |
| Schemas.UniformLoginEmailClear | src/middlewares/validation-schemas.ts:77-90 | the login email without the lookup passes exactly when, trimmed, it is well formed |
| Schemas.UniformLoginAccepted | src/middlewares/validation-schemas.ts:76-135 | dropping the email lookup changes no request's pass or fail: the same requests pass |
| Schemas.UniformLoginHidesAccounts | src/middlewares/validation-schemas.ts:116-131 | without the lookup, well-formed credentials that do not match get the one response `{ password: "User email or password is invalid." }`, registered or not |
| Schemas.UsernameClear | src/middlewares/validation-schemas.ts:146-164 | a sent username passes exactly when, trimmed, it has at most 20 characters as `isLength` counts them and no user has it |
| Schemas.UpdateEmailClear | src/middlewares/validation-schemas.ts:165-185 | a sent email passes exactly when, as sent (untrimmed), it has at most 50 characters as `isLength` counts them, is an email address and no user has it |
| Schemas.UpdatePasswordClear | src/middlewares/validation-schemas.ts:186-198 | a sent password passes exactly when, as sent, it has at least 8 characters as `isLength` counts them and matches the pattern |
| Schemas.FirstNameClear | src/middlewares/validation-schemas.ts:199-207 | a sent first name passes exactly when it has at most 20 characters as `isLength` counts them |
| Schemas.LastNameClear | src/middlewares/validation-schemas.ts:208-216 | a sent last name passes exactly when it has at most 20 characters as `isLength` counts them |
| Schemas.UpdateUserAccepted | src/middlewares/validation-schemas.ts:145-217 | `PUT /users/current` passes validation exactly when every field that was sent is acceptable; absent fields always are |
| Schemas.UpdateUserRefusesOwnEmail | src/middlewares/validation-schemas.ts:176-184 | sending one's own current email in an update is refused, because the check asks whether any user, the caller included, has it |
| Schemas.RequiredFormatClear | src/middlewares/validation-schemas.ts:223-249 | a field that is required and then format-checked passes exactly when it is non-empty and the format check accepts it |
| Schemas.TokenAccepted | src/middlewares/validation-schemas.ts:223-232 | the refresh-token cookie passes exactly when it is present and JWT-shaped |
| Schemas.IdSchema | src/middlewares/validation-schemas.ts:238-249 | `idSchema(field)` is one required field with exactly the given name |
| Schemas.IdAccepted | src/middlewares/validation-schemas.ts:238-249 | `idSchema(field)` passes exactly when the id is present and an ObjectId |
| Schemas.IdMessages | src/middlewares/validation-schemas.ts:241-246 | an empty id records `<field> is required.`, and an id the ObjectId check refuses records `Invalid <field>.`, in that order |
| Schemas.LimitClear | src/middlewares/validation-schemas.ts:257-266 | a sent limit passes exactly when it is an integer from 1 to 50 |
| Schemas.OffsetClear | src/middlewares/validation-schemas.ts:267-275 | a sent offset passes exactly when it is an integer of at least 0 |
| Schemas.PaginationAccepted | src/middlewares/validation-schemas.ts:256-276 | the listing routes pass validation exactly when a sent limit and a sent offset are integers in range |
| Schemas.CreateTitleClear | src/middlewares/validation-schemas.ts:285-296 | a new blog's title passes exactly when, trimmed, it is non-empty and at most 180 characters as `isLength` counts them |
| Schemas.TitleMeasuresDisagree | src/middlewares/validation-schemas.ts:290-293 | a title the schema's `isLength` lets through can still fail the model's `maxLength` (a hundred U+1F600, or 180 letters and a U+FE0F), so that create-blog request passes validation and its save throws |
| Schemas.ContentClear | src/middlewares/validation-schemas.ts:297-302 | the content of a new blog passes exactly when, trimmed, it is non-empty |
| Schemas.StatusClear | src/middlewares/validation-schemas.ts:303-309 | a sent status passes exactly when it is `draft` or `published` |
| Schemas.CreateBlogAccepted | src/middlewares/validation-schemas.ts:284-310 | `POST /blogs` passes validation exactly when the trimmed title is non-empty and at most 180 characters as `isLength` counts them, the trimmed content is non-empty and a sent status is valid |
| Schemas.UpdateTitleClear | src/middlewares/validation-schemas.ts:331-339 | a sent title of an update passes exactly when, untrimmed, it has at most 180 characters as `isLength` counts them |
| Schemas.UpdateBlogAccepted | src/middlewares/validation-schemas.ts:330-348 | `PUT /blogs/:blogId` passes validation exactly when a sent title fits and a sent status is valid; the content is not checked at all |
| Schemas.SlugClear | src/middlewares/validation-schemas.ts:317-321 | the slug passes exactly when it is non-empty |
| Schemas.BlogSlugAccepted | src/middlewares/validation-schemas.ts:316-322 | `GET /blogs/:slug` passes validation exactly when a slug is given |
| Schemas.CommentAccepted | src/middlewares/validation-schemas.ts:354-361 | a comment passes validation exactly when its trimmed content is non-empty |
| Listings.IntOr | src/controllers/v1/blog/get-all-blogs.ts:30-32 | `parseInt(x) \|\| default` is the default for a missing value, and otherwise either the default or the parsed number; it is never 0 unless the default is |
| Listings.PageParamsInRange | src/middlewares/validation-schemas.ts:256-276 | after the pagination schema has passed, the controllers work with a limit between 1 and 50 and an offset of at least 0 |
| Listings.Window | src/controllers/v1/blog/get-all-blogs.ts:46-47 | `.limit(limit).skip(offset)` as the store applies them: a negative skip makes the query throw, a negative limit acts as its absolute value, and a limit of 0 takes everything after the skip |
| Listings.ViewOf | src/controllers/v1/blog/get-all-blogs.ts:44-45 | the listed blog keeps the stored blog's id, title, slug, status and creation time, and its author is populated exactly when that user still exists |
| Listings.BlogPageShape | src/controllers/v1/blog/get-all-blogs.ts:43-50 | every blog on a page matches the query; the page is sorted by `createdAt` newest first, holds at most `limit` blogs, has exactly the length the window leaves, and is the run of sorted matches starting after `offset` of them |
| Listings.GetAllBlogs | src/controllers/v1/blog/get-all-blogs.ts:27-71 | every failure is a 500; the reply is a 200 exactly when no query throws and the offset is not negative |
| Listings.GetAllBlogsForReaders | src/controllers/v1/blog/get-all-blogs.ts:34-42 | a buyer or a seller is shown published blogs only, and `total` counts exactly the published blogs |
| Listings.GetAllBlogsForAdmins | src/controllers/v1/blog/get-all-blogs.ts:34-42 | an admin, or a requester whose user is gone, gets no status filter: `total` counts every blog, and the page is the run of all blogs, drafts included, newest first from `offset`, `limit` of them or all that are left |
| Listings.GetAllBlogsPage | src/controllers/v1/blog/get-all-blogs.ts:42-61 | the reply echoes the limit and offset used; the page is newest first and holds at most `limit` blogs; `total` is the same whatever limit and offset were asked for |
| Listings.GetAllBlogsContents | src/controllers/v1/blog/get-all-blogs.ts:42-50 | the page is exactly the run of the blogs the requester may see, newest first, that starts `offset` places in and holds `limit` of them or all that are left, each shown with its author populated |
| Listings.GetBlogsByUser | src/controllers/v1/blog/get-blogs-by-user.ts:27-78 | every failure is a 500; the reply is a 200 exactly when no query throws and the offset is not negative |
| Listings.GetBlogsByUserShape | src/controllers/v1/blog/get-blogs-by-user.ts:42-68 | every listed blog is by the author in the path; a buyer or seller sees only published ones; the page is newest first with at most `limit` blogs; `total` counts every blog of that author the requester may see |
| Listings.GetBlogsByUserPage | src/controllers/v1/blog/get-blogs-by-user.ts:42-68 | the page is exactly the run of the author's blogs the requester may see, newest first, that starts `offset` places in and holds `limit` of them or all that are left |
| Listings.ViewsOfAuthorBlogs | src/controllers/v1/blog/get-blogs-by-user.ts:50-52 | the views of blogs by an author are among the views of that author's blogs |
| Listings.GetBlogBySlug | src/controllers/v1/blog/get-blog-by-slug.ts:22-76 | a failure is a 500; no blog with the slug is a 404, checked before the role; a buyer or seller asking for a draft is a 403; a blog the requester may see is a 200 with it |
| Listings.GetBlogBySlugShown | src/controllers/v1/blog/get-blog-by-slug.ts:35-66 | the reply is a success exactly when a blog with the slug exists and the requester may see it, so admins see drafts and everyone sees published blogs |
| Listings.GetBlogBySlugUnique | src/models/blog.ts:48-52 | with unique slugs, the blog shown is the one stored blog that carries the slug |
| Listings.GetAllUser | src/controllers/v1/user/get-all-user.ts:22-55 | every failure is a 500; the reply is a 200 exactly when no query throws and the offset is not negative |
| Listings.GetAllUserPage | src/controllers/v1/user/get-all-user.ts:24-45 | `total` is the number of all users; the reply echoes limit and offset; the page is the users in store order (no sort) starting at `offset`, at most `limit` of them, without passwords |
| Listings.GetAllUserDefaults | src/controllers/v1/user/get-all-user.ts:24-26 | with no query values the limit is 20 and the offset 0: the page is the first twenty users |
| Blogs.CreateBlogSpec | src/controllers/v1/blog/create-blog.ts:59-67 | a failed creation is a 500 that stores no blog |
| Blogs.CreateBlogSuccess | src/controllers/v1/blog/create-blog.ts:36-58 | a created blog is appended with the fresh id, its author is the requester, its content is the sanitized content, title, banner and status are as given (`draft` when omitted), its slug is derived from the title, its counters are 0, the reply is 201 with it, and no other collection changes |
| Blogs.CreateBlogKeepsConsistent | src/controllers/v1/blog/create-blog.ts:43-49 | creating a blog keeps the store consistent (a fresh blog has no comments and no likes, and its counters are 0) |
| Blogs.CreateBlog | src/controllers/v1/blog/create-blog.ts:36-68 | the controller on the store leaves the state and reply of its specification |
| Blogs.UpdateAsWrittenRefusesAuthor | src/controllers/v1/blog/update-blog.ts:55 | as written, a seller who is the author of a blog is refused an update of it; the corrected check permits it |
| Blogs.UpdatePermissionDifference | src/controllers/v1/blog/update-blog.ts:55 | the written check only ever permits what the corrected one permits, and the two differ exactly for a non-admin author |
| Blogs.UpdateBlogSpec | src/controllers/v1/blog/update-blog.ts:37-96 | every refusal and failure leaves the store as it was; a failing lookup is a 500; a missing blog is a 404, checked before the permission; with the comparison as written, every requester who is not an admin gets a 403, the blog's author included; success is a 200 |
| Blogs.UpdateBlogSuccess | src/controllers/v1/blog/update-blog.ts:69-86 | a successful update was made by an admin and replaces exactly that blog; title, sanitized content, banner and status take the request's value when it is truthy and keep the stored one otherwise; id, author, slug, creation time and counters are kept |
| Blogs.UpdateBlogKeepsConsistent | src/controllers/v1/blog/update-blog.ts:69-77 | every update outcome keeps the store consistent |
| Blogs.AssignTruthy | src/controllers/v1/blog/update-blog.ts:69-75 | the field-by-field assignments leave the loaded document holding the updated paths |
| Blogs.UpdateBlog | src/controllers/v1/blog/update-blog.ts:37-96 | the controller on the store leaves the state and reply of its specification, so only an admin's update is saved |
| Blogs.DeleteBlogSpec | src/controllers/v1/blog/delete-blog.ts:27-79 | a failing lookup is a 500, a missing blog a 404, and a requester who is neither author nor admin a 403, each destroying and removing nothing; every failure leaves the store as it was |
| Blogs.DeleteBlogSuccess | src/controllers/v1/blog/delete-blog.ts:46-69 | a successful delete was by the author or an admin, destroys exactly that blog's banner, removes exactly that blog, replies 204, and leaves its comments, likes and every other collection as they were |
| Blogs.DeleteBlogLateFailure | src/controllers/v1/blog/delete-blog.ts:59-64 | when `deleteOne` throws after the banner was destroyed, the reply is a 500 and the blog stays, its image gone from the host |
| Blogs.RemoveBlogKeepsConsistent | src/controllers/v1/blog/delete-blog.ts:64 | removing one blog keeps ids and slugs unique and every remaining blog's counts in agreement |
| Blogs.DeleteBlogKeepsConsistent | src/controllers/v1/blog/delete-blog.ts:27-79 | every delete outcome keeps the store consistent |
| Blogs.DeleteBlog | src/controllers/v1/blog/delete-blog.ts:27-79 | the controller on the store leaves the state, reply and destroyed banners of its specification |
| Comments.AddCommentKeepsCounts | src/controllers/v1/comment/comment-blog.ts:55-63 | appending a comment and raising its blog's `commentsCount` by one keeps every blog's count equal to its number of comments |
| Comments.RemoveCommentKeepsCounts | src/controllers/v1/comment/delete-comment.ts:67-73 | removing a comment and lowering its blog's `commentsCount` by one keeps every blog's count equal to its number of comments |
| Comments.CommentBlogSpec | src/controllers/v1/comment/comment-blog.ts:37-86 | a failing lookup is a 500 and a missing blog a 404, both writing nothing; every failure is a 404 or a 500 |
| Comments.CommentBlogSuccess | src/controllers/v1/comment/comment-blog.ts:53-76 | a successful comment appends one comment with the path's blog id, the requester as author and the sanitized content, raises exactly that blog's `commentsCount` by one, and replies 201 with the comment |
| Comments.CommentBlogKeepsConsistent | src/controllers/v1/comment/comment-blog.ts:55-63 | unless the count's save throws, commenting keeps every blog's `commentsCount` equal to its number of comments |
| Comments.CommentBlogSaveFailureLagsCount | src/controllers/v1/comment/comment-blog.ts:55-63 | when the count's save throws, the comment is already stored: the reply is a 500 and that blog's count is one below its number of comments |
| Comments.CommentBlog | src/controllers/v1/comment/comment-blog.ts:37-86 | the controller on the store, raising the loaded counter in place, leaves the state and reply of its specification |
| Comments.DeleteCommentSpec | src/controllers/v1/comment/delete-comment.ts:22-89 | the checks come in order: a missing comment is a 404 "Comment not found.", then a missing blog a 404 "Blog not found.", then a requester who is not the comment's author a 403; each writes nothing |
| Comments.DeleteCommentSuccess | src/controllers/v1/comment/delete-comment.ts:52-79 | a successful delete was by the comment's author, removes exactly that comment, lowers exactly its blog's `commentsCount` by one and replies 204 |
| Comments.DeleteCommentNoAdminOverride | src/controllers/v1/comment/delete-comment.ts:52-65 | a requester who did not write the comment is refused whatever their role, and nothing changes |
| Comments.DeleteCommentKeepsConsistent | src/controllers/v1/comment/delete-comment.ts:67-73 | unless the count's save throws, deleting a comment keeps every blog's `commentsCount` equal to its number of comments |
| Comments.DeleteCommentSaveFailureLagsCount | src/controllers/v1/comment/delete-comment.ts:67-73 | when the save of the lowered count throws, the comment is already gone, the reply is a 500, and that blog's `commentsCount` is one above its number of comments |
| Comments.DeleteComment | src/controllers/v1/comment/delete-comment.ts:22-89 | the controller on the store, lowering the loaded counter in place, leaves the state and reply of its specification |
| Comments.CommentThenDeleteRestores | src/controllers/v1/comment/delete-comment.ts:67-73 | commenting and then deleting that comment as its author gives back the original comments and counts (only the id counter has moved) |
| Comments.GetCommentsByBlog | src/controllers/v1/comment/get-comments-by-blog.ts:22-60 | a failure is a 500 and a missing blog a 404; success is a 200 |
| Comments.GetCommentsByBlogAll | src/controllers/v1/comment/get-comments-by-blog.ts:39-50 | the listed comments are exactly the blog's comments, each as often as stored, all with that blog id, sorted by `createdAt` newest first, with no pagination |
| Likes.LikeBlogSpec | src/controllers/v1/like/like-blog.ts:26-76 | a failing lookup is a 500 and a missing blog a 404, and an existing like of the same blog by the same `userId` a 400; each writes nothing |
| Likes.LikeBlogSuccess | src/controllers/v1/like/like-blog.ts:40-66 | a successful like was not there before, appends exactly one like by the body's `userId`, raises exactly that blog's `likesCount` by one, and replies 200 with the raised count |
| Likes.AddLikeKeepsCounts | src/controllers/v1/like/like-blog.ts:49-52 | appending a like and raising its blog's `likesCount` by one keeps every blog's count equal to its number of likes |
| Likes.LikeBlogKeepsConsistent | src/controllers/v1/like/like-blog.ts:40-52 | unless the count's save throws, liking keeps every `likesCount` equal to the number of likes and at most one like per blog and user |
| Likes.LikeBlogSaveFailureLagsCount | src/controllers/v1/like/like-blog.ts:49-52 | when the save of the raised count throws, the like is already stored, the reply is a 500, and that blog's `likesCount` is one below its number of likes |
| Likes.LikeBlogDuplicate | src/controllers/v1/like/like-blog.ts:40-47 | a duplicate like is a 400 that changes nothing, the blog's count included |
| Likes.LikeTwiceRefused | src/controllers/v1/like/like-blog.ts:40-52 | after a successful like, the same user liking the same blog again is refused and the state stays as the first like left it |
| Likes.LikeBlog | src/controllers/v1/like/like-blog.ts:26-76 | the controller on the store, raising the loaded counter in place, leaves the state and reply of its specification |
| Users.UpdateCurrentUserSpec | src/controllers/v1/user/update-current-user.ts:21-61 | every failure leaves the store as it was; a failing lookup is a 500 and a missing user a 404; success is a 200 |
| Users.UpdateCurrentUserSuccess | src/controllers/v1/user/update-current-user.ts:38-51 | a successful update replaces exactly the requester's user; username, email, first name (`first_name`) and last name (`last_name`) take the body's value when truthy and keep the stored one otherwise; a truthy new password is stored hashed and any other password is kept byte for byte; id, creation time and role never change |
| Users.UpdateCurrentUserKeepsConsistent | src/controllers/v1/user/update-current-user.ts:38-44 | every update outcome keeps the store consistent (usernames and emails stay unique) |
| Users.AssignTruthy | src/controllers/v1/user/update-current-user.ts:38-42 | the field-by-field assignments leave the loaded document holding the updated paths, the password marked modified only when it changed |
| Users.UpdateCurrentUser | src/controllers/v1/user/update-current-user.ts:21-61 | the controller on the store leaves the state and reply of its specification |
| Users.BannerIds | src/controllers/v1/user/delete-user.ts:35 | the collected ids are the banner public ids of the given blogs, one per blog, in order |
| Users.DeleteUserSpec | src/controllers/v1/user/delete-user.ts:27-63 | every failure is a 500; a failure before the blogs are removed changes nothing and destroys nothing; the reply is a 204 exactly when no call throws, even for a user that does not exist |
| Users.DeleteUserSuccess | src/controllers/v1/user/delete-user.ts:29-53 | a successful delete destroys the banner of every blog of the user named in the path, removes exactly that user's blogs (the others stay, in order) and then that user, and leaves comments, likes and refresh tokens in place |
| Users.DeleteUserLateFailure | src/controllers/v1/user/delete-user.ts:42-48 | when `User.deleteOne` throws, the user's blogs and banners are already gone but the user stays |
| Users.RemoveBlogsByKeepsConsistent | src/controllers/v1/user/delete-user.ts:42 | removing the blogs of one author keeps ids and slugs unique and each remaining blog's counts in agreement |
| Users.DeleteUserKeepsConsistent | src/controllers/v1/user/delete-user.ts:27-63 | every outcome of the delete keeps the store consistent |
| Users.DeleteUser | src/controllers/v1/user/delete-user.ts:27-63 | the controller on the store leaves the state, reply and destroyed banners of its specification |
| Routes.SchemaOf | src/routes/v1/user.ts:76 | `userIdSchema` and `blogIdSchema`, which the routers import but the schema module does not define, stand for no schema; `idSchema(field)` is the id schema for that field; the login route runs `loginSchema`, email lookup included |
| Routes.RunFrom | src/routes/v1/blog.ts:43-52 | a chain that runs out of middleware falls through, and the first controller ends it with `req.userId` as the earlier middleware left it |
| Routes.GateFreeKeepsUser | src/routes/v1/blog.ts:47-51 | middleware other than `authenticate` and `authorize` never changes `req.userId` |
| Routes.GateFreeIgnoresRequest | src/routes/v1/auth.ts:37-51 | after the last gate, the outcome does not depend on the `Authorization` header, the token verifier or the stored users |
| Routes.ReachedPassedAll | src/routes/v1/blog.ts:43-52 | reaching the controller means it is the chain's last element and every ordinary middleware before it called `next()` |
| Routes.ProtectedReach | src/routes/v1/user.ts:40-45 | a controller behind `authenticate` and `authorize` runs only with a verified access token whose user is stored with an admitted role, and it sees that user's id |
| Routes.WellGuardedAll | src/routes/v1/user.ts:40-88 | every route of a router that is well guarded starts with `authenticate` then `authorize`, has no further gate, ends in its controller, and has `validationError` after every `checkSchema` |
| Routes.RolesFromAll | src/routes/v1/user.ts:63-88 | every route in a run of routes admits exactly the given roles |
| Routes.WritesForAdminsAll | src/routes/v1/blog.ts:43-101 | in such a router, every GET admits all three roles and every other verb only admins |
| Routes.ReportJustBeforeAll | src/routes/v1/comment.ts:29-55 | in such a router, `validationError` runs just before each controller |
| Routes.UserRoutesShape | src/routes/v1/user.ts:40-88 | every user route is protected and reports its checks; the three `/current` routes admit every role and the other three only admins |
| Routes.BlogRoutesShape | src/routes/v1/blog.ts:43-101 | every blog route is protected and reports its checks; the three reads admit every role, the create, update and delete only admins |
| Routes.CommentAndLikeRoutesShape | src/routes/v1/like.ts:28-46 | every comment and like route is protected, reports its checks, admits every role, and runs `validationError` just before its controller |
| Routes.ProtectedRoutesShape | src/routes/v1/comment.ts:29-55 | all routes of the user, blog, comment and like routers together are protected and report their checks |
| Routes.AdminOnlyReach | src/routes/v1/user.ts:63-88 | the controller of an admin-only route is reached only by a user stored as an admin |
| Routes.CreateBlogReached | src/routes/v1/blog.ts:43-52 | `createBlog` runs only for an admin whose request got through multer, the create-blog checks, `validationError` and the banner upload |
| Routes.PublicAuthRoutes | src/routes/v1/auth.ts:37-51 | register, login and refresh-token start with their checks, report them, and answer the same whatever token or stored role the request carries |
| Routes.LogoutNeedsTokenOnly | src/routes/v1/auth.ts:53 | logout reaches its controller exactly when the access token verifies, and otherwise answers as `authenticate` does; no role is checked |
| Upload.ReplacedPublicId | src/middlewares/upload-blog-banner.ts:51-57 | the public id sent to the image host is present exactly when the route has a `:blogId` and that blog exists, and is its old banner id with the first `ecommerce-api/` removed; a route without `:blogId` sends none |
| Upload.ReplacedPublicIdDropsFolder | src/middlewares/upload-blog-banner.ts:56 | an id of the form `ecommerce-api/<rest>` is sent as `<rest>` |
| Upload.UploadReply | src/middlewares/upload-blog-banner.ts:59-93 | a stored image becomes the body's banner with its public id, secure URL, width and height; an empty answer is a 500; a thrown error keeps its status and message and is a validation error exactly when the status is below 500 |
| Upload.UploadBlogBanner | src/middlewares/upload-blog-banner.ts:26-93 | on update without a file the request goes on unchanged; on create without a file it is a 400 `Blog banner is required`; a file over 2 MiB is a 413; otherwise the image host decides, and on a route without `:blogId` it gets no public id to overwrite |
| Upload.CreateRouteSendsNoPublicId | src/routes/v1/blog.ts:42-51 | on the create route, which has no `:blogId`, a banner within the limit is uploaded with no public id, so no stored image is overwritten |
| Upload.UploadSetsBannerOnlyFromHost | src/middlewares/upload-blog-banner.ts:59-70 | the request goes on only unchanged (update without a file) or with exactly the image the host reports for a file within the limit |
| Upload.SizeLimitBoundary | src/middlewares/upload-blog-banner.ts:42-48 | the limit is inclusive: exactly 2 MiB reaches the host, one byte more is a 413 |
| Server.EnvOr | src/config/index.ts:20-21 | an unset or empty variable takes the default, and any other value is used as it is |
| Server.CorsOrigin | src/server.ts:40-55 | an origin is rejected, with an error naming it, exactly when the server is not in development, the origin is present and non-empty, and it is not a substring of the whitelist string |
| Server.UnsetNodeEnvAllowsAll | src/config/index.ts:20 | with `NODE_ENV` unset the server runs as development and every origin is allowed |
| Server.DefaultWhitelistRejects | src/config/index.ts:21 | outside development, the default whitelist `*` rejects every non-empty origin other than `*` itself |
| Server.WhitelistPiecesAllowed | src/server.ts:44 | any piece of the whitelist string is an allowed origin, not only the origins listed in it |
| Text.IndexOfFrom | src/controllers/v1/auth/register.ts:37 | the index found is the first place at or after `from` where the needle occurs, and no index means it occurs nowhere from there on |
| Text.IncludesIff | src/controllers/v1/auth/register.ts:37 | `includes` on strings is a substring test: true exactly when the needle occurs somewhere, so also for the empty needle |
| Text.IncludesPiece | src/server.ts:44 | a string includes each of its contiguous pieces |
| Text.ReplaceFirst | src/middlewares/upload-blog-banner.ts:56 | `replace` with a string pattern changes only the first occurrence: the text before it and after it is kept, and a string without the pattern is returned as it is |
| Text.ReplaceLeading | src/middlewares/upload-blog-banner.ts:56 | removing a pattern the string starts with leaves exactly the rest |
| Text.Split | src/middlewares/authenticate.ts:42 | `split` on one character always yields at least one part |
| Text.JoinSplit | src/middlewares/authenticate.ts:42 | joining the parts of `split(sep)` with `sep` gives back the original string |
| Text.SplitPartsAvoidSeparator | src/middlewares/authenticate.ts:42 | no part of a split contains the separator |
| Text.SplitAfterPiece | src/middlewares/authenticate.ts:42 | a piece without the separator, followed by the separator, splits off as the first part |
| Text.TrimStart | src/middlewares/validation-schemas.ts:20 | trimming the front removes exactly a run of leading white space and leaves a string that starts with a non-space |
| Text.TrimEnd | src/middlewares/validation-schemas.ts:20 | trimming the end removes exactly a run of trailing white space and leaves a string that ends with a non-space |
| Text.TrimShape | src/middlewares/validation-schemas.ts:20 | `trim` keeps one contiguous piece of the input, cuts only white space around it, and the result starts and ends on a non-space |
| Text.TrimIdempotent | src/middlewares/validation-schemas.ts:20 | trimming twice is trimming once |
| Text.FirstLine | src/middlewares/validation-schemas.ts:56 | the first line is the longest prefix without a line terminator, the part `.` can match |
| Text.PasswordPatternIff | src/middlewares/validation-schemas.ts:56 | the password regular expression matches exactly a non-empty string without line terminators that holds a lower-case letter, an upper-case letter and a digit |
| Text.IntegerText | src/middlewares/validation-schemas.ts:259-265 | `isInt` accepts decimal digits with an optional sign; a run of digits denotes its decimal value, and nothing empty is accepted |
| Text.Utf16Length | src/models/blog.ts:46 | JavaScript's `length`, which Mongoose's `maxLength` compares, is between the number of characters and twice that |
| Text.ValidatorLength | src/middlewares/validation-schemas.ts:290-293 | the length `isLength` compares, code points without U+FE0E and U+FE0F, is at most the number of characters |
| Text.PlainLengths | src/models/blog.ts:46 | on text of Basic Multilingual Plane characters without variation selectors, both measures equal the number of characters |
| Text.LengthsAppend | src/models/blog.ts:46 | both measures add up over a concatenation |
| Text.AstralRunLengths | src/models/blog.ts:46 | a run of `n` characters outside the Basic Multilingual Plane is `2n` UTF-16 units and `n` for `isLength` |
| Collections.FindFrom | src/controllers/v1/blog/get-blog-by-slug.ts:29-33 | `findOne` finds the first matching document from a position on, and no result means no document from there on matches |
| Collections.Filter | src/controllers/v1/blog/get-all-blogs.ts:42-43 | `find(filter)` keeps every matching document, and only matching documents, never more than there were |
| Collections.RemoveAt | src/controllers/v1/comment/delete-comment.ts:67 | `deleteOne` removes exactly the document at the match and keeps the rest in order |
| Collections.InsertDescSorted | src/controllers/v1/blog/get-all-blogs.ts:48 | inserting into a newest-first sequence keeps it newest first and adds exactly the one element |
| Collections.SortDesc | src/controllers/v1/blog/get-all-blogs.ts:48 | `sort({ createdAt: -1 })` returns the same documents, as a multiset, newest first |
| Collections.SortDescMembers | src/controllers/v1/blog/get-all-blogs.ts:48 | sorting neither adds nor drops a document |
| Collections.Page | src/controllers/v1/blog/get-all-blogs.ts:46-47 | `skip(offset).limit(limit)` takes the documents from position `offset` on, at most `limit` of them and as many as there are up to that |
| Collections.PageSorted | src/controllers/v1/blog/get-all-blogs.ts:46-48 | a page of a newest-first sequence is newest first |
| Collections.MapSeq | src/controllers/v1/blog/get-all-blogs.ts:44-45 | mapping keeps the length and applies the projection element by element |

## Left out

- JWT signing and verification, bcrypt, DOMPurify, the slug generator and validator.js's `isEmail`, `isJWT` and `isMongoId` are parameters. The JWT helpers (`src/libs/jwt`) are not part of this model. `genSlug` is imported from `@/utils` (src/models/blog.ts:14), but its definition is not among the repository's files: `src/utils/index.ts` defines only `genUsername`. The `genSlug` parameter of `Store.SaveBlogSpec` and `BlogModel.SlugAfterHook` stands for it. A verification error is an expiry, a `NotBeforeError` or another `JsonWebTokenError`.
- `parseInt` is a parameter that yields an integer or nothing. Only the `|| default` fallback around it is modelled, not its prefix, radix and trailing-text rules.
- `genUsername` uses `Math.random`, so the generated username is a parameter of `register`. Ids are issued by a counter, not generated as ObjectIds.
- The database connection, logging, the rate limiter, the image-host client and the server's startup, listening and shutdown are not modelled. Neither is the environment loading beyond the defaults the model uses.
- Concurrency is not modelled. Every controller is one sequential step on the store, so check-then-insert races are outside the model (for example two simultaneous likes).
- The `logout` and `unlikeBlog` controllers are imported by the routers but their source is absent. Their routes are modelled; what the controllers do is not.
- `userIdSchema` and `blogIdSchema` are imported by the routers but not defined among the schemas. `Routes.SchemaOf` gives no schema for them and leaves those steps unspecified.
- The version-1 index router mounts only `/auth` and `/users`. The blog, comment and like routers are modelled as written, without any claim that they are mounted.
- `getUser`, `getCurrentUser` and `deleteCurrentUser` are single lookups or removals and are not modelled. The Token and Like models are modelled only as the records the store holds.
- Success messages of the replies are not modelled. Error replies keep their status, code and message.
- A malformed id in a path (a Mongoose `CastError`) is covered only as a failing call (`failAt`/`fails`). The model does not tell it apart from other errors.
- Upload.UploadBlogBanner: the `Blog.findById` lookup inside the middleware's `try` is assumed not to throw. A thrown lookup would answer with an undefined status, and the model does not cover it.
- The upload host's `delete_resources` and `destroy` either succeed or throw before destroying anything. A partial deletion on the host is not modelled.
- Users.UpdateCurrentUserSuccess: the reply is the saved user, including the password hash the controller sends back. The contract states the stored user, not the serialisation of the reply.
- Request values are strings: the JSON body is modelled as a map from field names to text, so a non-string value such as `"role": 5` cannot be sent, and the `isString` checks always pass.
- Validation.RunSchema, Validation.Get: the request's locations (path parameters, query, body and cookies) are merged into one map from field name to text, and headers are left out. express-validator instead looks up each schema field in body, cookies, headers, params and query and validates every location where the field occurs. A field sent in several locations (a `blogId` in both the path and the body) is therefore not modelled. Neither is a field sent only outside the location the controller reads, such as `req.body.email` in the login password check, `req.cookies.refreshToken` in the refresh exchange or `req.body.userId` in likeBlog.
- Validation.StoreEnv: the store queries of the custom validators (`User.exists` and `User.findOne` in the register, login and update-user schemas) always answer. A query that rejects would be caught by express-validator's custom runner and recorded as that field's error with the driver's message, which gives a 400 and not a 500. That outcome is not modelled.
- Lengths are counted over Unicode scalar values. A lone UTF-16 surrogate in a request cannot be written as a Dafny `char`, so it is not modelled.
- The multipart parsing of multer is not modelled. The parsed file is a parameter with its size and bytes.
- The `others` parameter of `Routes.RunChain` decides every middleware except the two gates, so route lemmas hold whatever multer, the schema checks and the upload do. What those steps do is stated by their own modules.
- Collections.SortDesc: MongoDB does not promise any order among blogs or comments with equal `createdAt`. The model sorts in one particular order, and its contract and lemmas say nothing about the order of equal keys.

## Findings

| source | as written | input that shows it | evidently intended | confidence | as-written member | corrected member |
|---|---|---|---|---|---|---|
| src/controllers/v1/blog/update-blog.ts:55 | `blog.author !== userId` compares an ObjectId with the request's user id by reference, so it is always true and only admins pass | a seller who wrote the blog updates it: 403, while `deleteBlog` (src/controllers/v1/blog/delete-blog.ts:46) lets the author through | the author or an admin may update, as `blog.author.equals(userId)` in `deleteBlog` | not executed; the route admits only admins, so it shows only if the route changes | Blogs.UpdateAsWrittenRefusesAuthor | Blogs.UpdatePermissionDifference |
| src/middlewares/validation-schemas.ts:91-98 | the login email check throws for an unknown email, so the 400 response lists the `email` field only for addresses that are not registered | well-formed credentials with a wrong password: `{ password }` for a registered email, `{ email, password }` for an unknown one | one response for every failed login, as the shared message `User email or password is invalid.` intends | not executed | Schemas.LoginTellsAccountsApart | Schemas.UniformLoginHidesAccounts |
| src/controllers/v1/auth/register.ts:37 | `WHITELIST_ADMINS_MAIL.includes(email)` is a substring test on the whitelist string | with `alice@example.com` whitelisted, `ice@example.com` registers as admin | only an email that is an entry of the whitelist (taken here as comma-separated) may register as admin | not executed | Auth.RegisterAdmitsWhitelistPiece | Auth.AdminGateStricter |

The handlers and the routes use the code as written:
- `Blogs.UpdatePermittedAsWritten` in `Blogs.UpdateBlogSpec`;
- `Schemas.LoginSchema` on the login route (`Routes.SchemaOf`);
- `Auth.AdminRefusedAsWritten` in `Auth.RegisterSpec`.

The corrected definitions (`Blogs.UpdatePermitted`, `Schemas.UniformLoginSchema`, `Auth.AdminRefused`) stand beside them, with their intended properties proved.

The CORS origin check (src/server.ts:44) has the same substring behaviour as the third finding. It is modelled as written and stated by `Server.WhitelistPiecesAllowed`.
