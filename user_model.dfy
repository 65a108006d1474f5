/**
 * The `User` model: its roles, the schema's constraints and defaults, the
 * document a controller loads and assigns to, and the pre-save hook that
 * hashes a modified password.
 */
module UserModel {
  import opened Wrappers
  import opened Text

  datatype Role = Admin | Buyer | Seller

  function RoleName(r: Role): string {
    match r
    case Admin => "admin"
    case Buyer => "buyer"
    case Seller => "seller"
  }

  const RoleNames: seq<string> := ["admin", "buyer", "seller"]

  /** The `enum` of the `role` path: exactly the three role names are accepted. */
  function ParseRole(s: string): (r: Option<Role>)
    ensures r.Some? <==> s in RoleNames
    ensures r.Some? ==> RoleName(r.value) == s
  {
    if s == "admin" then Some(Admin)
    else if s == "buyer" then Some(Buyer)
    else if s == "seller" then Some(Seller)
    else None
  }

  /** A stored user. The password is the bcrypt hash. */
  datatype User = User(
    id: Id,
    username: string,
    email: string,
    password: string,
    role: Role,
    firstName: Option<string>,
    lastName: Option<string>,
    createdAt: int)

  /** A user as queries return it by default: the `password` path has `select: false`. */
  datatype PublicUser = PublicUser(
    id: Id,
    username: string,
    email: string,
    role: Role,
    firstName: Option<string>,
    lastName: Option<string>,
    createdAt: int)

  function Public(u: User): PublicUser {
    PublicUser(u.id, u.username, u.email, u.role, u.firstName, u.lastName, u.createdAt)
  }

  const MaxUsernameLength: nat := 20
  const MaxEmailLength: nat := 50
  const MaxNameLength: nat := 20
  const DefaultRole: string := "buyer"

  /** The paths of a user document as the schema validates them. */
  datatype UserFields = UserFields(
    username: string,
    email: string,
    password: string,
    role: string,
    firstName: Option<string>,
    lastName: Option<string>)

  /** `maxLength` on an optional path: an absent value is not checked. */
  predicate FitsIn(v: Option<string>, n: nat) {
    v.None? || Utf16Length(v.value) <= n
  }

  /**
   * The schema: username, email, password and role are `required` (an empty
   * string fails `required`), username at most 20 and email at most 50
   * UTF-16 units long (JavaScript's `length`), role one of the three names,
   * first and last name optional and at most 20 units long.
   */
  predicate UserConforms(f: UserFields) {
    && f.username != "" && Utf16Length(f.username) <= MaxUsernameLength
    && f.email != "" && Utf16Length(f.email) <= MaxEmailLength
    && f.password != ""
    && ParseRole(f.role).Some?
    && FitsIn(f.firstName, MaxNameLength)
    && FitsIn(f.lastName, MaxNameLength)
  }

  /** The stored user a document with a valid role becomes. */
  function ToUser(id: Id, f: UserFields, createdAt: int): (u: User)
    requires ParseRole(f.role).Some?
    ensures u.id == id && u.username == f.username && u.email == f.email && u.password == f.password
    ensures RoleName(u.role) == f.role
    ensures u.firstName == f.firstName && u.lastName == f.lastName && u.createdAt == createdAt
  {
    User(id, f.username, f.email, f.password, ParseRole(f.role).value, f.firstName, f.lastName, createdAt)
  }

  /** The paths of a stored user. */
  function UserFieldsOf(u: User): UserFields {
    UserFields(u.username, u.email, u.password, RoleName(u.role), u.firstName, u.lastName)
  }

  /** Storing the paths of a stored user back gives the same user. */
  lemma ToUserFieldsOf(u: User)
    requires UserConforms(UserFieldsOf(u))
    ensures ToUser(u.id, UserFieldsOf(u), u.createdAt) == u
  {
  }

  /** A user document's state as `save()` sees it. */
  datatype UserDraft = UserDraft(id: Id, createdAt: int, isNew: bool, fields: UserFields, passwordModified: bool)

  /** A user document held by a controller: the paths it may assign, `isNew`, and `isModified('password')`. */
  class UserDocument {
    const id: Id
    const createdAt: int
    /** Built by `User.create`, not yet stored. */
    const isNew: bool
    var username: string
    var email: string
    var password: string
    var role: string
    var firstName: Option<string>
    var lastName: Option<string>
    var passwordModified: bool

    function Fields(): UserFields
      reads this
    {
      UserFields(username, email, password, role, firstName, lastName)
    }

    function Draft(): UserDraft
      reads this
    {
      UserDraft(id, createdAt, isNew, Fields(), passwordModified)
    }

    /** `new User({ username, email, password, role })`: an omitted role takes the default `buyer`; every given path counts as modified. */
    constructor Create(id: Id, username: string, email: string, password: string, role: Option<string>, now: int)
      ensures this.id == id && this.createdAt == now && isNew
      ensures Fields() == UserFields(username, email, password, role.GetOr(DefaultRole), None, None)
      ensures passwordModified
    {
      this.id := id;
      this.createdAt := now;
      this.isNew := true;
      this.username := username;
      this.email := email;
      this.password := password;
      this.role := role.GetOr(DefaultRole);
      this.firstName := None;
      this.lastName := None;
      this.passwordModified := true;
    }

    /** A document hydrated from a stored user, with nothing modified yet. */
    constructor Load(u: User)
      ensures id == u.id && createdAt == u.createdAt && !isNew
      ensures Fields() == UserFieldsOf(u)
      ensures !passwordModified
    {
      this.id := u.id;
      this.createdAt := u.createdAt;
      this.isNew := false;
      this.username := u.username;
      this.email := u.email;
      this.password := u.password;
      this.role := RoleName(u.role);
      this.firstName := u.firstName;
      this.lastName := u.lastName;
      this.passwordModified := false;
    }

    /** `user.password = v`: the path counts as modified only if the value changes. */
    method SetPassword(v: string)
      modifies this`password, this`passwordModified
      ensures password == v
      ensures passwordModified == (old(passwordModified) || v != old(password))
    {
      if v != password {
        passwordModified := true;
      }
      password := v;
    }

    /** The pre-save hook: a modified password is replaced by its hash; an unmodified one is left as it is. */
    method HashPasswordHook(hash: string -> string)
      modifies this`password
      ensures password == if passwordModified then hash(old(password)) else old(password)
    {
      if passwordModified {
        password := hash(password);
      }
    }
  }
}
