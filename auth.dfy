/**
 * The authentication controllers: `register` (admin whitelist, user insert,
 * first refresh token), `login` (one more refresh token for a known email)
 * and `refreshToken` (a stored, valid refresh token is exchanged for an
 * access token; nothing is written).
 */
module Auth {
  import opened Wrappers
  import opened Text
  import opened Http
  import opened Jwt
  import opened UserModel
  import opened Store

  /** The `user` object of a register or login response: no password. */
  datatype UserSummary = UserSummary(username: string, email: string, role: Role)

  datatype AuthBody = AuthBody(message: string, user: UserSummary, accessToken: string)

  /** What a write-side auth controller leaves: the store, the reply, and the cookie it set. */
  datatype AuthOutcome = AuthOutcome(state: Snapshot, reply: Reply<AuthBody>, cookie: Option<Cookie>)

  const AdminRefusedMessage: string := "You cannot register as an admin."
  const RegisteredMessage: string := "User registered successfully."
  const LoggedInMessage: string := "User logged in successfully."
  const LoginUserNotFoundMessage: string := "User not found."
  const InvalidRefreshMessage: string := "Invalid refresh token."
  const RefreshExpiredMessage: string := "Refresh token expired, please login again."

  function Summary(u: User): UserSummary {
    UserSummary(u.username, u.email, u.role)
  }

  /**
   * The admin gate as written: `role === 'admin'` is admitted whenever the
   * email occurs ANYWHERE in the whitelist string, since `includes` on a
   * string is a substring test.
   */
  predicate AdminRefusedAsWritten(role: Option<string>, email: string, whitelist: string) {
    role == Some("admin") && !Includes(whitelist, email)
  }

  /** The whitelist of admin emails is a comma-separated list; an email is whitelisted when it is one of its entries. */
  predicate Whitelisted(email: string, whitelist: string) {
    email in Split(whitelist, ',')
  }

  /** The admin gate as intended: admin registration only for an email that is an entry of the whitelist. */
  predicate AdminRefused(role: Option<string>, email: string, whitelist: string) {
    role == Some("admin") && !Whitelisted(email, whitelist)
  }

  /**
   * The gate as written admits a proper part of a whitelisted address:
   * with `alice@example.com` whitelisted, `ice@example.com` may register as
   * admin; the intended gate refuses it.
   */
  lemma AdminGateAsWrittenAdmitsPart()
    ensures !AdminRefusedAsWritten(Some("admin"), "ice@example.com", "alice@example.com")
    ensures AdminRefused(Some("admin"), "ice@example.com", "alice@example.com")
  {
    IncludesPiece("al", "ice@example.com", "");
    assert "al" + "ice@example.com" + "" == "alice@example.com";
    SplitWithoutSeparator("alice@example.com", ',');
  }

  /** The intended gate never admits an email the written one refuses: it only closes the substring hole. */
  lemma AdminGateStricter(role: Option<string>, email: string, whitelist: string)
    ensures AdminRefusedAsWritten(role, email, whitelist) ==> AdminRefused(role, email, whitelist)
  {
    if Whitelisted(email, whitelist) {
      var parts := Split(whitelist, ',');
      var k :| 0 <= k < |parts| && parts[k] == email;
      JoinIncludesParts(parts, ',', k);
      JoinSplit(whitelist, ',');
    }
  }

  /** The document `User.create({ username, email, password, role })` validates and saves. */
  function NewUserDraft(id: Id, username: string, email: string, password: string, role: Option<string>, now: int): UserDraft {
    UserDraft(id, now, true, UserFields(username, email, password, role.GetOr(DefaultRole), None, None), true)
  }

  /**
   * `register`, on a store snapshot. `username` is what `genUsername`
   * produced, `hash` the bcrypt hash, `failAt` the store operation that
   * throws (1: the user insert, 2: the token insert; anything else: none).
   */
  function RegisterSpec(s: Snapshot, email: string, password: string, role: Option<string>, whitelist: string,
                        username: string, hash: string -> string, access: Codec, refresh: Codec,
                        nodeEnv: string, now: int, failAt: nat): AuthOutcome
  {
    if AdminRefusedAsWritten(role, email, whitelist) then
      AuthOutcome(s, Failure(403, AuthorizationError, AdminRefusedMessage), None)
    else
      var id := s.nextId;
      var w := SaveUserSpec(TakeId(s), NewUserDraft(id, username, email, password, role, now), hash, failAt == 1);
      match w.result
      case None => AuthOutcome(w.state, Failure(500, ServerError, ServerErrorMessage), None)
      case Some(u) =>
        var refreshToken := refresh.sign(id);
        var t := CreateTokenSpec(w.state, refreshToken, id, failAt == 2);
        if t.result.None? then AuthOutcome(t.state, Failure(500, ServerError, ServerErrorMessage), None)
        else AuthOutcome(t.state, Success(201, AuthBody(RegisteredMessage, Summary(u), access.sign(id))),
                         Some(RefreshCookie(refreshToken, nodeEnv)))
  }

  /**
   * An email that is not a substring of the whitelist string cannot register
   * as admin, and the store is left untouched.
   */
  lemma RegisterAdminGate(s: Snapshot, email: string, password: string, whitelist: string, username: string,
                          hash: string -> string, access: Codec, refresh: Codec, nodeEnv: string, now: int, failAt: nat)
    requires !Includes(whitelist, email)
    ensures var o := RegisterSpec(s, email, password, Some("admin"), whitelist, username, hash, access, refresh, nodeEnv, now, failAt);
      o.state == s && o.reply == Failure(403, AuthorizationError, AdminRefusedMessage) && o.cookie.None?
  {
  }

  /**
   * As written, the handler lets a proper part of a whitelisted address
   * register as admin: with `alice@example.com` whitelisted, a request for
   * `ice@example.com` with role `admin` is not refused by the gate.
   */
  lemma RegisterAdmitsWhitelistPiece(s: Snapshot, password: string, username: string,
                                     hash: string -> string, access: Codec, refresh: Codec, nodeEnv: string, now: int, failAt: nat)
    ensures RegisterSpec(s, "ice@example.com", password, Some("admin"), "alice@example.com",
                         username, hash, access, refresh, nodeEnv, now, failAt).reply !=
            Failure(403, AuthorizationError, AdminRefusedMessage)
  {
    AdminGateAsWrittenAdmitsPart();
  }

  /**
   * A successful registration adds exactly one user (the generated username,
   * the given email, the HASHED password, the given role or `buyer`) and
   * exactly one refresh token tied to that user; blogs, comments and likes
   * are untouched; the reply carries no password and the cookie holds the
   * stored refresh token.
   */
  lemma {:induction false} RegisterSuccess(s: Snapshot, email: string, password: string, role: Option<string>, whitelist: string,
                         username: string, hash: string -> string, access: Codec, refresh: Codec,
                         nodeEnv: string, now: int, failAt: nat)
    requires RegisterSpec(s, email, password, role, whitelist, username, hash, access, refresh, nodeEnv, now, failAt).reply.Success?
    ensures var o := RegisterSpec(s, email, password, role, whitelist, username, hash, access, refresh, nodeEnv, now, failAt);
      var u := User(s.nextId, username, email, hash(password), ParseRole(role.GetOr(DefaultRole)).value, None, None, now);
      && ParseRole(role.GetOr(DefaultRole)).Some?
      && o.state.users == s.users + [u]
      && o.state.tokens == s.tokens + [TokenRecord(s.nextId + 1, refresh.sign(u.id), u.id)]
      && o.state.blogs == s.blogs && o.state.comments == s.comments && o.state.likes == s.likes
      && o.reply == Success(201, AuthBody(RegisteredMessage, UserSummary(username, email, u.role), access.sign(u.id)))
      && o.cookie == Some(RefreshCookie(refresh.sign(u.id), nodeEnv))
      && (role.None? ==> u.role == Buyer)
  {
    var d := NewUserDraft(s.nextId, username, email, password, role, now);
    var w := SaveUserSpec(TakeId(s), d, hash, failAt == 1);
    assert w.result.Some?;
    assert HashedPassword(d, hash) == hash(password);
  }

  /**
   * When the token insert throws, the user insert has already happened: the
   * reply is a 500 but the user stays, without a refresh token.
   */
  lemma RegisterTokenFailureKeepsUser(s: Snapshot, email: string, password: string, role: Option<string>, whitelist: string,
                                      username: string, hash: string -> string, access: Codec, refresh: Codec,
                                      nodeEnv: string, now: int)
    requires !AdminRefusedAsWritten(role, email, whitelist)
    requires SaveUserSpec(TakeId(s), NewUserDraft(s.nextId, username, email, password, role, now), hash, false).result.Some?
    ensures var o := RegisterSpec(s, email, password, role, whitelist, username, hash, access, refresh, nodeEnv, now, 2);
      o.reply == Failure(500, ServerError, ServerErrorMessage) && o.state.tokens == s.tokens
      && |o.state.users| == |s.users| + 1 && o.state.users[|s.users|].id == s.nextId
  {
  }

  /** Every registration outcome keeps the store consistent. */
  lemma RegisterKeepsConsistent(s: Snapshot, email: string, password: string, role: Option<string>, whitelist: string,
                                username: string, hash: string -> string, access: Codec, refresh: Codec,
                                nodeEnv: string, now: int, failAt: nat)
    requires Consistent(s)
    ensures Consistent(RegisterSpec(s, email, password, role, whitelist, username, hash, access, refresh, nodeEnv, now, failAt).state)
  {
    if !AdminRefusedAsWritten(role, email, whitelist) {
      var s1 := TakeId(s);
      TakeIdKeepsConsistent(s);
      var w := SaveUserSpec(s1, NewUserDraft(s.nextId, username, email, password, role, now), hash, failAt == 1);
      SaveUserKeepsConsistent(s1, NewUserDraft(s.nextId, username, email, password, role, now), hash, failAt == 1);
      if w.result.Some? {
        CreateTokenKeepsConsistent(w.state, refresh.sign(s.nextId), s.nextId, failAt == 2);
      }
    }
  }

  /**
   * `register` on the store. The route has validated the body; the
   * controller itself only applies the admin gate and relies on the model and
   * the unique indexes for the rest (a violation is a 500).
   */
  method Register(db: Database, email: string, password: string, role: Option<string>, whitelist: string,
                  username: string, hash: string -> string, access: Codec, refresh: Codec,
                  nodeEnv: string, now: int, failAt: nat)
    returns (reply: Reply<AuthBody>, cookie: Option<Cookie>)
    modifies db
    ensures var o := RegisterSpec(old(db.State()), email, password, role, whitelist, username, hash, access, refresh, nodeEnv, now, failAt);
      db.State() == o.state && reply == o.reply && cookie == o.cookie
  {
    if role == Some("admin") && !Includes(whitelist, email) {
      return Failure(403, AuthorizationError, AdminRefusedMessage), None;
    }
    var id := db.NewId();
    var doc := new UserDocument.Create(id, username, email, password, role, now);
    var saved := db.SaveUser(doc, hash, failAt == 1);
    if saved.None? {
      return Failure(500, ServerError, ServerErrorMessage), None;
    }
    var refreshToken := refresh.sign(id);
    var token := db.CreateToken(refreshToken, id, failAt == 2);
    if token.None? {
      return Failure(500, ServerError, ServerErrorMessage), None;
    }
    reply := Success(201, AuthBody(RegisteredMessage, Summary(saved.value), access.sign(id)));
    cookie := Some(RefreshCookie(refreshToken, nodeEnv));
  }

  /**
   * `login`, on a store snapshot: `failAt` 1 makes the user lookup throw,
   * 2 the token insert.
   */
  function LoginSpec(s: Snapshot, email: string, access: Codec, refresh: Codec, nodeEnv: string, failAt: nat): AuthOutcome {
    if failAt == 1 then AuthOutcome(s, Failure(500, ServerError, ServerErrorMessage), None)
    else match FindUserByEmail(s, email)
      case None => AuthOutcome(s, Failure(404, NotFound, LoginUserNotFoundMessage), None)
      case Some(u) =>
        var refreshToken := refresh.sign(u.id);
        var t := CreateTokenSpec(s, refreshToken, u.id, failAt == 2);
        if t.result.None? then AuthOutcome(t.state, Failure(500, ServerError, ServerErrorMessage), None)
        else AuthOutcome(t.state, Success(200, AuthBody(LoggedInMessage, Summary(u), access.sign(u.id))),
                         Some(RefreshCookie(refreshToken, nodeEnv)))
  }

  /**
   * An unknown email is a 404 and writes no token; a known one appends one
   * token for the first user with that email and keeps every earlier token;
   * no user, blog, comment or like changes on any path.
   */
  lemma LoginTokens(s: Snapshot, email: string, access: Codec, refresh: Codec, nodeEnv: string, failAt: nat)
    ensures var o := LoginSpec(s, email, access, refresh, nodeEnv, failAt);
      && o.state.users == s.users && o.state.blogs == s.blogs && o.state.comments == s.comments && o.state.likes == s.likes
      && (failAt != 1 && FindUserByEmail(s, email).None? ==>
            o.reply == Failure(404, NotFound, LoginUserNotFoundMessage) && o.state == s)
      && (o.reply.Success? ==>
            var u := FindUserByEmail(s, email).value;
            && o.state.tokens == s.tokens + [TokenRecord(s.nextId, refresh.sign(u.id), u.id)]
            && o.reply.status == 200 && o.reply.body.user == UserSummary(u.username, email, u.role)
            && o.reply.body.accessToken == access.sign(u.id)
            && o.cookie == Some(RefreshCookie(refresh.sign(u.id), nodeEnv)))
      && (o.reply.Success? <==> failAt != 1 && failAt != 2 && FindUserByEmail(s, email).Some?)
  {
  }

  lemma LoginKeepsConsistent(s: Snapshot, email: string, access: Codec, refresh: Codec, nodeEnv: string, failAt: nat)
    requires Consistent(s)
    ensures Consistent(LoginSpec(s, email, access, refresh, nodeEnv, failAt).state)
  {
    if failAt != 1 && FindUserByEmail(s, email).Some? {
      var u := FindUserByEmail(s, email).value;
      CreateTokenKeepsConsistent(s, refresh.sign(u.id), u.id, failAt == 2);
    }
  }

  method Login(db: Database, email: string, access: Codec, refresh: Codec, nodeEnv: string, failAt: nat)
    returns (reply: Reply<AuthBody>, cookie: Option<Cookie>)
    modifies db
    ensures var o := LoginSpec(old(db.State()), email, access, refresh, nodeEnv, failAt);
      db.State() == o.state && reply == o.reply && cookie == o.cookie
  {
    if failAt == 1 {
      return Failure(500, ServerError, ServerErrorMessage), None;
    }
    var user := FindUserByEmail(db.State(), email);
    if user.None? {
      return Failure(404, NotFound, LoginUserNotFoundMessage), None;
    }
    var u := user.value;
    var refreshToken := refresh.sign(u.id);
    var token := db.CreateToken(refreshToken, u.id, failAt == 2);
    if token.None? {
      return Failure(500, ServerError, ServerErrorMessage), None;
    }
    reply := Success(200, AuthBody(LoggedInMessage, Summary(u), access.sign(u.id)));
    cookie := Some(RefreshCookie(refreshToken, nodeEnv));
  }

  /**
   * `refreshToken`: the token must be stored BEFORE its signature is
   * checked; a stored, valid token gives a new access token for its `userId`;
   * an expired one asks to log in again, checked before the generic
   * invalid-token case; anything else thrown (including a throwing store
   * lookup, `fails`) is a 500. The result is a reply only: no path writes to
   * the store, so no token is added, removed or rotated.
   */
  function RefreshToken(s: Snapshot, token: string, refresh: Codec, access: Codec, fails: bool): (r: Reply<string>)
    ensures fails ==> r == Failure(500, ServerError, ServerErrorMessage)
    ensures !fails && !TokenExists(s, token) ==> r == Failure(401, AuthenticationError, InvalidRefreshMessage)
    ensures !fails && TokenExists(s, token) ==>
      var v := refresh.verify(token);
      && (v.Verified? ==> r == Success(200, access.sign(v.userId)))
      && (v.Rejected? && IsTokenExpired(v.error) ==> r == Failure(401, AuthenticationError, RefreshExpiredMessage))
      && (v.Rejected? && !IsTokenExpired(v.error) && IsJsonWebToken(v.error) ==> r == Failure(401, AuthenticationError, InvalidRefreshMessage))
      && (v.Rejected? && !IsJsonWebToken(v.error) ==> r == Failure(500, ServerError, ServerErrorMessage))
    ensures r.Success? <==> !fails && TokenExists(s, token) && refresh.verify(token).Verified?
  {
    if fails then Failure(500, ServerError, ServerErrorMessage)
    else if !TokenExists(s, token) then Failure(401, AuthenticationError, InvalidRefreshMessage)
    else match refresh.verify(token)
      case Verified(userId) => Success(200, access.sign(userId))
      case Rejected(e) =>
        if IsTokenExpired(e) then Failure(401, AuthenticationError, RefreshExpiredMessage)
        else if IsJsonWebToken(e) then Failure(401, AuthenticationError, InvalidRefreshMessage)
        else Failure(500, ServerError, ServerErrorMessage)
  }

  /**
   * A token that was never stored is refused the same way whatever its
   * signature verifies to: the verifier is not consulted.
   */
  lemma RefreshIgnoresSignatureOfUnknown(s: Snapshot, token: string, r1: Codec, r2: Codec, access: Codec, fails: bool)
    requires !TokenExists(s, token)
    ensures RefreshToken(s, token, r1, access, fails) == RefreshToken(s, token, r2, access, fails)
  {
  }

  /** A token issued by login can be exchanged until it fails to verify: login stores exactly what it signs. */
  lemma LoginTokenIsExchangeable(s: Snapshot, email: string, access: Codec, refresh: Codec, nodeEnv: string)
    requires LoginSpec(s, email, access, refresh, nodeEnv, 0).reply.Success?
    ensures var o := LoginSpec(s, email, access, refresh, nodeEnv, 0);
      TokenExists(o.state, o.cookie.value.value)
  {
    var o := LoginSpec(s, email, access, refresh, nodeEnv, 0);
    var u := FindUserByEmail(s, email).value;
    var t := TokenRecord(s.nextId, refresh.sign(u.id), u.id);
    assert o.state.tokens[|s.tokens|] == t;
    var p := (t: TokenRecord) => t.token == refresh.sign(u.id);
    assert p(o.state.tokens[|s.tokens|]);
    assert o.cookie.value.value == refresh.sign(u.id);
  }
}
