/**
 * The version-1 routers as data: each route is a verb, a path and the
 * middleware chain Express runs for it, in order. `RunChain` runs a chain
 * with the real `authenticate` and `authorize` and with every other
 * middleware given as a parameter, which is enough to state who can reach
 * each controller.
 */
module Routes {
  import opened Wrappers
  import opened Http
  import opened Jwt
  import opened UserModel
  import opened Store
  import opened Validation
  import opened Schemas
  import Gate
  import Upload

  datatype Verb = Get | Post | Put | Delete

  /** One element of a chain. */
  datatype Middleware =
    | Authenticate
    | Authorize(roles: seq<Role>)
    /** multer's `upload.single(field)`: parses a multipart body and attaches that file. */
    | Multer(field: string)
    /** `checkSchema(schema)`, naming the schema. */
    | Check(schema: SchemaRef)
    /** `validationError`: answers 400 with the errors the checks recorded, if any. */
    | ReportValidation
    | UploadBanner(mode: Upload.UploadMethod)
    | Controller(name: string)

  datatype Route = Route(verb: Verb, path: string, chain: seq<Middleware>)

  /** The schemas the routers name. `UserIdSchema` and `BlogIdSchema` are imported by the routers but not defined by the schema module. */
  datatype SchemaRef =
    | RegisterRef | LoginRef | TokenRef | UpdateUserRef | PaginationRef
    | CreateBlogRef | BlogSlugRef | UpdateBlogRef | CommentRef
    | IdRef(field: string)
    | UserIdSchema | BlogIdSchema

  /**
   * The schema a name stands for, `None` when it is undefined. The login
   * route runs `loginSchema`, whose email check looks the address up.
   */
  function SchemaOf(ref: SchemaRef): (r: Option<Schema>)
    ensures r.None? <==> ref.UserIdSchema? || ref.BlogIdSchema?
    ensures ref.IdRef? ==> r == Some(IdSchema(ref.field))
    ensures ref == LoginRef ==> r == Some(LoginSchema)
  {
    match ref
    case RegisterRef => Some(RegisterSchema)
    case LoginRef => Some(LoginSchema)
    case TokenRef => Some(TokenSchema)
    case UpdateUserRef => Some(UpdateUserSchema)
    case PaginationRef => Some(PaginationSchema)
    case CreateBlogRef => Some(CreateBlogSchema)
    case BlogSlugRef => Some(BlogSlugSchema)
    case UpdateBlogRef => Some(UpdateBlogSchema)
    case CommentRef => Some(CommentSchema)
    case IdRef(field) => Some(IdSchema(field))
    case UserIdSchema => None
    case BlogIdSchema => None
  }

  const AllRoles: seq<Role> := [Admin, Buyer, Seller]
  const AdminOnly: seq<Role> := [Admin]

  /** The router mounted under `/auth`. */
  const AuthRoutes: seq<Route> := [
    Route(Post, "/register", [Check(RegisterRef), ReportValidation, Controller("register")]),
    Route(Post, "/login", [Check(LoginRef), ReportValidation, Controller("login")]),
    Route(Post, "/refresh-token", [Check(TokenRef), ReportValidation, Controller("refreshToken")]),
    Route(Post, "/logout", [Authenticate, Controller("logout")])
  ]

  /** The router mounted under `/users`. */
  const UserRoutes: seq<Route> := [
    Route(Get, "/current", [Authenticate, Authorize([Admin, Buyer, Seller]), Controller("getCurrentUser")]),
    Route(Put, "/current", [Authenticate, Authorize([Admin, Buyer, Seller]), Check(UpdateUserRef), ReportValidation,
                            Controller("updateCurrentUser")]),
    Route(Delete, "/current", [Authenticate, Authorize([Admin, Buyer, Seller]), Controller("deleteCurrentUser")]),
    Route(Get, "/", [Authenticate, Authorize([Admin]), Check(PaginationRef), ReportValidation,
                     Controller("getAllUser")]),
    Route(Get, "/:userId", [Authenticate, Authorize([Admin]), Check(UserIdSchema), ReportValidation, Controller("getUser")]),
    Route(Delete, "/:userId", [Authenticate, Authorize([Admin]), Check(UserIdSchema), ReportValidation, Controller("deleteUser")])
  ]

  /** The blog router. */
  const BlogRoutes: seq<Route> := [
    Route(Post, "/", [Authenticate, Authorize([Admin]), Multer("banner_image"), Check(CreateBlogRef),
                      ReportValidation, UploadBanner(Upload.Post), Controller("createBlog")]),
    Route(Get, "/", [Authenticate, Authorize([Admin, Buyer, Seller]), Check(PaginationRef), ReportValidation,
                     Controller("getAllBlogs")]),
    Route(Get, "/user/:userId", [Authenticate, Authorize([Admin, Buyer, Seller]), Check(UserIdSchema), Check(PaginationRef),
                                 ReportValidation, Controller("getBlogsByUser")]),
    Route(Get, "/:slug", [Authenticate, Authorize([Admin, Buyer, Seller]), Check(BlogSlugRef), ReportValidation,
                          Controller("getBlogBySlug")]),
    Route(Put, "/:blogId", [Authenticate, Authorize([Admin]), Check(BlogIdSchema), Multer("banner_image"),
                            Check(UpdateBlogRef), ReportValidation, UploadBanner(Upload.Put),
                            Controller("updateBlog")]),
    Route(Delete, "/:blogId", [Authenticate, Authorize([Admin]), Check(BlogIdSchema), ReportValidation, Controller("deleteBlog")])
  ]

  /** The comment router. */
  const CommentRoutes: seq<Route> := [
    Route(Post, "/blog/:blogId", [Authenticate, Authorize([Admin, Buyer, Seller]), Check(IdRef("blogId")),
                                  Check(CommentRef), ReportValidation, Controller("commentBlog")]),
    Route(Get, "/blog/:blogId", [Authenticate, Authorize([Admin, Buyer, Seller]), Check(IdRef("blogId")), ReportValidation,
                                 Controller("getCommentsByBlog")]),
    Route(Delete, "/:commentId", [Authenticate, Authorize([Admin, Buyer, Seller]), Check(IdRef("commentId")),
                                  ReportValidation, Controller("deleteComment")])
  ]

  /** The like router. */
  const LikeRoutes: seq<Route> := [
    Route(Post, "/blog/:blogId", [Authenticate, Authorize([Admin, Buyer, Seller]), Check(IdRef("blogId")),
                                  Check(IdRef("userId")), ReportValidation, Controller("likeBlog")]),
    Route(Delete, "/blog/:blogId", [Authenticate, Authorize([Admin, Buyer, Seller]), Check(IdRef("blogId")),
                                    Check(IdRef("userId")), ReportValidation, Controller("unlikeBlog")])
  ]

  /** Every route behind `authenticate` and `authorize`. */
  const ProtectedRoutes: seq<Route> := UserRoutes + BlogRoutes + CommentRoutes + LikeRoutes

  // ------------------------------------------------------------ running a chain

  /** What the gate middlewares read: the `Authorization` header, the access-token verifier, and the store. */
  datatype Request = Request(header: Option<string>, verify: string -> Verification, store: Snapshot, lookupFails: bool)

  datatype ChainOutcome =
    | Reached(controller: string, userId: Option<Id>)
    | Halted(status: nat, code: ErrorCode, message: string)
    /** The chain ended without a controller; Express moves on to the next matching route. */
    | FellThrough

  predicate IsGate(m: Middleware) {
    m.Authenticate? || m.Authorize?
  }

  /**
   * Runs `chain` from position `i`: `authenticate` and `authorize` as the
   * gate module defines them, anything else as `others` decides. The first
   * controller ends the chain. `userId` is `req.userId` so far; with no
   * `authenticate` before it, `authorize` looks up an undefined id and finds
   * no user.
   */
  function RunFrom(chain: seq<Middleware>, i: nat, userId: Option<Id>, req: Request, others: Middleware -> Step<()>): (r: ChainOutcome)
    ensures i >= |chain| ==> r == FellThrough
    ensures i < |chain| && chain[i].Controller? ==> r == Reached(chain[i].name, userId)
    decreases |chain| - i
  {
    if i >= |chain| then FellThrough
    else match chain[i]
      case Controller(name) => Reached(name, userId)
      case Authenticate =>
        (match Gate.Authenticate(req.header, req.verify)
         case Next(id) => RunFrom(chain, i + 1, Some(id), req, others)
         case Stop(status, code, message) => Halted(status, code, message))
      case Authorize(roles) =>
        if userId.None? then Halted(404, NotFound, Gate.UserNotFoundMessage)
        else
          (match Gate.Authorize(roles, userId.value, req.store, req.lookupFails)
           case Next(_) => RunFrom(chain, i + 1, userId, req, others)
           case Stop(status, code, message) => Halted(status, code, message))
      case _ =>
        (match others(chain[i])
         case Next(_) => RunFrom(chain, i + 1, userId, req, others)
         case Stop(status, code, message) => Halted(status, code, message))
  }

  /** A request entering `chain`, before anything has set `req.userId`. */
  function RunChain(chain: seq<Middleware>, req: Request, others: Middleware -> Step<()>): ChainOutcome {
    RunFrom(chain, 0, None, req, others)
  }

  /** No `authenticate` or `authorize` from position `i` on. */
  predicate GateFreeFrom(chain: seq<Middleware>, i: nat)
    decreases |chain| - i
  {
    i >= |chain| || (!IsGate(chain[i]) && GateFreeFrom(chain, i + 1))
  }

  /** From position `i` on, the chain holds exactly one controller, as its last element. */
  predicate EndsInController(chain: seq<Middleware>, i: nat)
    decreases |chain| - i
  {
    i < |chain| && (if chain[i].Controller? then i == |chain| - 1 else EndsInController(chain, i + 1))
  }

  /**
   * No check is left unreported when the controller runs: after every
   * `checkSchema` from position `i` on, a `validationError` follows before
   * the controller. `pending` says that a check ran since the last report.
   */
  predicate ChecksReported(chain: seq<Middleware>, i: nat, pending: bool)
    decreases |chain| - i
  {
    && i < |chain|
    && if chain[i].Controller? then !pending && i == |chain| - 1
       else ChecksReported(chain, i + 1, chain[i].Check? || (pending && !chain[i].ReportValidation?))
  }

  /** The shape of every protected chain: `authenticate`, then `authorize`, then no further gate, then the controller. */
  predicate Protected(chain: seq<Middleware>) {
    && |chain| >= 3 && chain[0].Authenticate? && chain[1].Authorize?
    && GateFreeFrom(chain, 2) && EndsInController(chain, 0)
  }

  /** The roles a protected chain admits. */
  function RolesOf(r: Route): seq<Role>
    requires Protected(r.chain)
  {
    r.chain[1].roles
  }

  /** Without a gate from `i` on, the chain passes `req.userId` through to its controller unchanged. */
  lemma {:induction false} GateFreeKeepsUser(chain: seq<Middleware>, i: nat, userId: Option<Id>, req: Request,
                                             others: Middleware -> Step<()>)
    requires GateFreeFrom(chain, i)
    requires RunFrom(chain, i, userId, req, others).Reached?
    ensures RunFrom(chain, i, userId, req, others).userId == userId
    decreases |chain| - i
  {
    if !chain[i].Controller? {
      GateFreeKeepsUser(chain, i + 1, userId, req, others);
    }
  }

  /** Without a gate from `i` on, the rest of the chain does not look at the header, the verifier or the store. */
  lemma {:induction false} GateFreeIgnoresRequest(chain: seq<Middleware>, i: nat, userId: Option<Id>, req1: Request,
                                                  req2: Request, others: Middleware -> Step<()>)
    requires GateFreeFrom(chain, i)
    ensures RunFrom(chain, i, userId, req1, others) == RunFrom(chain, i, userId, req2, others)
    decreases |chain| - i
  {
    if i < |chain| && !chain[i].Controller? {
      GateFreeIgnoresRequest(chain, i + 1, userId, req1, req2, others);
    }
  }

  /**
   * Reaching a controller from position `i` means it is the chain's last
   * element and every ordinary middleware from `i` on let the request
   * through.
   */
  lemma {:induction false} ReachedPassedAll(chain: seq<Middleware>, i: nat, userId: Option<Id>, req: Request,
                                            others: Middleware -> Step<()>)
    requires EndsInController(chain, i)
    requires RunFrom(chain, i, userId, req, others).Reached?
    ensures chain[|chain| - 1].Controller? && RunFrom(chain, i, userId, req, others).controller == chain[|chain| - 1].name
    ensures forall k :: i <= k < |chain| - 1 && !IsGate(chain[k]) ==> others(chain[k]).Next?
    decreases |chain| - i
  {
    if !chain[i].Controller? {
      var u := if chain[i].Authenticate? then Some(Gate.Authenticate(req.header, req.verify).ctx) else userId;
      assert RunFrom(chain, i, userId, req, others) == RunFrom(chain, i + 1, u, req, others);
      ReachedPassedAll(chain, i + 1, u, req, others);
    }
  }

  /**
   * The controller of a protected chain is reached only with a verified
   * access token whose user is stored with one of the admitted roles, and it
   * sees that user's id.
   */
  lemma ProtectedReach(chain: seq<Middleware>, req: Request, others: Middleware -> Step<()>)
    requires Protected(chain)
    requires RunChain(chain, req, others).Reached?
    ensures Gate.Authenticate(req.header, req.verify).Next?
    ensures var id := Gate.Authenticate(req.header, req.verify).ctx;
      && !req.lookupFails && RoleOf(req.store, id).Some? && RoleOf(req.store, id).value in chain[1].roles
      && RunChain(chain, req, others).userId == Some(id)
  {
    var a := Gate.Authenticate(req.header, req.verify);
    assert a.Next?;
    var id := a.ctx;
    assert RunChain(chain, req, others) == RunFrom(chain, 1, Some(id), req, others);
    var z := Gate.Authorize(chain[1].roles, id, req.store, req.lookupFails);
    assert z.Next?;
    assert RunChain(chain, req, others) == RunFrom(chain, 2, Some(id), req, others);
    GateFreeKeepsUser(chain, 2, Some(id), req, others);
  }

  // ------------------------------------------------------------ the tables

  /** Every route of `routes` from position `i` on is protected and reports its checks. */
  predicate WellGuarded(routes: seq<Route>, i: nat)
    decreases |routes| - i
  {
    i >= |routes| || (Protected(routes[i].chain) && ChecksReported(routes[i].chain, 0, false) && WellGuarded(routes, i + 1))
  }

  lemma {:induction false} WellGuardedAll(routes: seq<Route>, i: nat)
    requires WellGuarded(routes, i)
    ensures forall k :: i <= k < |routes| ==> Protected(routes[k].chain) && ChecksReported(routes[k].chain, 0, false)
    decreases |routes| - i
  {
    if i < |routes| {
      WellGuardedAll(routes, i + 1);
    }
  }

  /** The route at position `k` admits exactly `roles`. */
  predicate Admits(routes: seq<Route>, k: nat, roles: seq<Role>) {
    k < |routes| && |routes[k].chain| >= 2 && routes[k].chain[1] == Authorize(roles)
  }

  /** The routes at positions `i` up to `j` all admit exactly `roles`. */
  predicate RolesFrom(routes: seq<Route>, i: nat, j: nat, roles: seq<Role>)
    decreases j - i
  {
    i >= j || (Admits(routes, i, roles) && RolesFrom(routes, i + 1, j, roles))
  }

  lemma {:induction false} RolesFromAll(routes: seq<Route>, i: nat, j: nat, roles: seq<Role>)
    requires RolesFrom(routes, i, j, roles)
    ensures forall k :: i <= k < j ==> Admits(routes, k, roles)
    decreases j - i
  {
    if i < j {
      RolesFromAll(routes, i + 1, j, roles);
    }
  }

  /** From position `i` on, reads admit every role and writes only admins. */
  predicate WritesForAdmins(routes: seq<Route>, i: nat)
    decreases |routes| - i
  {
    i >= |routes| ||
    (|routes[i].chain| >= 2 && routes[i].chain[1] == Authorize(if routes[i].verb == Get then AllRoles else AdminOnly) &&
     WritesForAdmins(routes, i + 1))
  }

  lemma {:induction false} WritesForAdminsAll(routes: seq<Route>, i: nat)
    requires WritesForAdmins(routes, i)
    ensures forall k :: i <= k < |routes| ==>
      |routes[k].chain| >= 2 && routes[k].chain[1] == Authorize(if routes[k].verb == Get then AllRoles else AdminOnly)
    decreases |routes| - i
  {
    if i < |routes| {
      WritesForAdminsAll(routes, i + 1);
    }
  }

  /** From position `i` on, `validationError` runs immediately before the controller. */
  predicate ReportJustBefore(routes: seq<Route>, i: nat)
    decreases |routes| - i
  {
    i >= |routes| ||
    (|routes[i].chain| >= 2 && routes[i].chain[|routes[i].chain| - 2] == ReportValidation && ReportJustBefore(routes, i + 1))
  }

  lemma {:induction false} ReportJustBeforeAll(routes: seq<Route>, i: nat)
    requires ReportJustBefore(routes, i)
    ensures forall k :: i <= k < |routes| ==> |routes[k].chain| >= 2 && routes[k].chain[|routes[k].chain| - 2] == ReportValidation
    decreases |routes| - i
  {
    if i < |routes| {
      ReportJustBeforeAll(routes, i + 1);
    }
  }

  lemma UserRoutesGuarded()
    ensures WellGuarded(UserRoutes, 0)
  {
  }

  lemma UserRoutesRoles()
    ensures RolesFrom(UserRoutes, 0, 3, AllRoles) && RolesFrom(UserRoutes, 3, 6, AdminOnly)
  {
  }

  /** Every user route is protected and reports its checks; the three `/current` routes admit every role, the others only admins. */
  lemma UserRoutesShape()
    ensures forall k :: 0 <= k < |UserRoutes| ==>
      Protected(UserRoutes[k].chain) && ChecksReported(UserRoutes[k].chain, 0, false)
    ensures forall k :: 0 <= k < 3 ==> UserRoutes[k].chain[1] == Authorize(AllRoles)
    ensures forall k :: 3 <= k < |UserRoutes| ==> UserRoutes[k].chain[1] == Authorize(AdminOnly)
    ensures UserRoutes[0].path == UserRoutes[1].path == UserRoutes[2].path == "/current"
  {
    UserRoutesGuarded();
    WellGuardedAll(UserRoutes, 0);
    UserRoutesRoles();
    RolesFromAll(UserRoutes, 0, 3, AllRoles);
    RolesFromAll(UserRoutes, 3, 6, AdminOnly);
  }

  lemma BlogRoutesGuarded()
    ensures WellGuarded(BlogRoutes, 0)
  {
  }

  lemma BlogRoutesRoles()
    ensures WritesForAdmins(BlogRoutes, 0)
  {
  }

  /** Every blog route is protected and reports its checks; the reads admit every role, the writes only admins. */
  lemma BlogRoutesShape()
    ensures forall k :: 0 <= k < |BlogRoutes| ==>
      && Protected(BlogRoutes[k].chain) && ChecksReported(BlogRoutes[k].chain, 0, false)
      && BlogRoutes[k].chain[1] == Authorize(if BlogRoutes[k].verb == Get then AllRoles else AdminOnly)
  {
    BlogRoutesGuarded();
    WellGuardedAll(BlogRoutes, 0);
    BlogRoutesRoles();
    WritesForAdminsAll(BlogRoutes, 0);
  }

  lemma CommentRoutesGuarded()
    ensures WellGuarded(CommentRoutes, 0) && RolesFrom(CommentRoutes, 0, 3, AllRoles)
  {
  }

  lemma LikeRoutesGuarded()
    ensures WellGuarded(LikeRoutes, 0) && RolesFrom(LikeRoutes, 0, 2, AllRoles)
  {
  }

  lemma CommentAndLikeReportLast()
    ensures ReportJustBefore(CommentRoutes, 0) && ReportJustBefore(LikeRoutes, 0)
  {
  }

  /**
   * Every comment and like route is protected, reports its checks, admits
   * every role, and runs `validationError` immediately before its controller.
   */
  lemma CommentAndLikeRoutesShape()
    ensures forall r :: r in CommentRoutes + LikeRoutes ==>
      && Protected(r.chain) && ChecksReported(r.chain, 0, false) && r.chain[1] == Authorize(AllRoles)
      && r.chain[|r.chain| - 2] == ReportValidation
  {
    CommentRoutesGuarded();
    LikeRoutesGuarded();
    CommentAndLikeReportLast();
    WellGuardedAll(CommentRoutes, 0);
    WellGuardedAll(LikeRoutes, 0);
    RolesFromAll(CommentRoutes, 0, 3, AllRoles);
    RolesFromAll(LikeRoutes, 0, 2, AllRoles);
    ReportJustBeforeAll(CommentRoutes, 0);
    ReportJustBeforeAll(LikeRoutes, 0);
    forall r | r in CommentRoutes + LikeRoutes
      ensures Protected(r.chain) && ChecksReported(r.chain, 0, false) && r.chain[1] == Authorize(AllRoles)
      ensures r.chain[|r.chain| - 2] == ReportValidation
    {
      if r in CommentRoutes {
        var k :| 0 <= k < |CommentRoutes| && CommentRoutes[k] == r;
      } else {
        var k :| 0 <= k < |LikeRoutes| && LikeRoutes[k] == r;
      }
    }
  }

  /** The four protected routers together. */
  lemma ProtectedRoutesShape()
    ensures forall r :: r in ProtectedRoutes ==> Protected(r.chain) && ChecksReported(r.chain, 0, false)
  {
    UserRoutesShape();
    BlogRoutesShape();
    CommentAndLikeRoutesShape();
    forall r | r in ProtectedRoutes ensures Protected(r.chain) && ChecksReported(r.chain, 0, false) {
      if r in UserRoutes {
        var k :| 0 <= k < |UserRoutes| && UserRoutes[k] == r;
      } else if r in BlogRoutes {
        var k :| 0 <= k < |BlogRoutes| && BlogRoutes[k] == r;
      } else {
        assert r in CommentRoutes + LikeRoutes;
      }
    }
  }

  /** The controller of an admin-only route is reached only by a user stored as an admin. */
  lemma AdminOnlyReach(r: Route, req: Request, others: Middleware -> Step<()>)
    requires r in ProtectedRoutes
    requires RunChain(r.chain, req, others).Reached?
    ensures Protected(r.chain) && Gate.Authenticate(req.header, req.verify).Next?
    ensures RolesOf(r) == AdminOnly ==> RoleOf(req.store, Gate.Authenticate(req.header, req.verify).ctx) == Some(Admin)
  {
    ProtectedRoutesShape();
    ProtectedReach(r.chain, req, others);
  }

  /**
   * `createBlog` runs only for an admin whose request passed multer, the
   * create-blog checks, `validationError` and then the banner upload.
   */
  lemma CreateBlogReached(req: Request, others: Middleware -> Step<()>)
    requires RunChain(BlogRoutes[0].chain, req, others).Reached?
    ensures RunChain(BlogRoutes[0].chain, req, others).controller == "createBlog"
    ensures Gate.Authenticate(req.header, req.verify).Next?
    ensures RoleOf(req.store, Gate.Authenticate(req.header, req.verify).ctx) == Some(Admin)
    ensures others(Multer("banner_image")).Next? && others(Check(CreateBlogRef)).Next?
    ensures others(ReportValidation).Next? && others(UploadBanner(Upload.Post)).Next?
  {
    var c := BlogRoutes[0].chain;
    BlogRoutesShape();
    ProtectedReach(c, req, others);
    ReachedPassedAll(c, 0, None, req, others);
    assert c[2] == Multer("banner_image") && c[3] == Check(CreateBlogRef);
    assert c[4] == ReportValidation && c[5] == UploadBanner(Upload.Post);
  }

  /** Register, login and refresh-token have no gate: their outcome does not depend on any token or stored role. */
  lemma PublicAuthRoutes(k: nat, req1: Request, req2: Request, others: Middleware -> Step<()>)
    requires k < 3
    ensures AuthRoutes[k].chain[0].Check? && ChecksReported(AuthRoutes[k].chain, 0, false)
    ensures RunChain(AuthRoutes[k].chain, req1, others) == RunChain(AuthRoutes[k].chain, req2, others)
  {
    assert GateFreeFrom(AuthRoutes[k].chain, 0);
    GateFreeIgnoresRequest(AuthRoutes[k].chain, 0, None, req1, req2, others);
  }

  /** Logout needs a verified access token and nothing else: no role check, no stored user. */
  lemma LogoutNeedsTokenOnly(req: Request, others: Middleware -> Step<()>)
    ensures AuthRoutes[3].path == "/logout"
    ensures var a := Gate.Authenticate(req.header, req.verify);
      RunChain(AuthRoutes[3].chain, req, others) ==
        if a.Next? then Reached("logout", Some(a.ctx)) else Halted(a.status, a.code, a.message)
  {
  }
}
