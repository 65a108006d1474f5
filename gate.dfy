/**
 * The two middlewares every protected route starts with: `authenticate`
 * reads the bearer token and attaches the verified `userId` to the request,
 * and `authorize(roles)` admits the request only when the stored user's role
 * is one of `roles`.
 */
module Gate {
  import opened Wrappers
  import opened Text
  import opened Http
  import opened Jwt
  import opened UserModel
  import opened Store

  const NoTokenMessage: string := "Access denied, no token provided."
  const AccessExpiredMessage: string := "Access token expired, request a new one with refresh token."
  const AccessInvalidMessage: string := "Invalid access token, please login again."
  const UserNotFoundMessage: string := "User not found."

  /** `const [_, token] = header.split(' ')`: the second space-separated part. */
  function BearerToken(header: string): (token: string)
    requires StartsWith(header, "Bearer ")
  {
    var parts := Split(header, ' ');
    assert header == "Bearer" + [' '] + header[7..];
    SplitAfterPiece("Bearer", ' ', header[7..]);
    parts[1]
  }

  /**
   * The token is what follows `"Bearer "` up to the next space: a header
   * `"Bearer " + t + rest` with no space in `t` yields `t`, whatever `rest`
   * holds after a further space.
   */
  lemma BearerTokenIsSecondWord(t: string, rest: string)
    requires ' ' !in t
    ensures BearerToken("Bearer " + t + [' '] + rest) == t
    ensures BearerToken("Bearer " + t) == t
  {
    var h1 := "Bearer " + t + [' '] + rest;
    assert h1 == "Bearer" + [' '] + (t + [' '] + rest);
    SplitAfterPiece("Bearer", ' ', t + [' '] + rest);
    SplitAfterPiece(t, ' ', rest);
    var h2 := "Bearer " + t;
    assert h2 == "Bearer" + [' '] + t;
    SplitAfterPiece("Bearer", ' ', t);
    SplitWithoutSeparator(t, ' ');
  }

  /**
   * `authenticate`: a missing header, or one that does not start with
   * `"Bearer "`, is refused before anything is verified; a verified token
   * passes its `userId` on; an expired token is reported as expired before
   * the generic invalid-token case; anything else thrown is a server error.
   * No store is consulted: the result depends on the header and the
   * verifier alone.
   */
  function Authenticate(header: Option<string>, verify: string -> Verification): (r: Step<Id>)
    ensures !(Truthy(header) && StartsWith(header.value, "Bearer ")) ==>
      r == Stop(401, AuthenticationError, NoTokenMessage)
    ensures Truthy(header) && StartsWith(header.value, "Bearer ") ==>
      var v := verify(BearerToken(header.value));
      && (v.Verified? ==> r == Next(v.userId))
      && (v.Rejected? && IsTokenExpired(v.error) ==> r == Stop(401, AuthenticationError, AccessExpiredMessage))
      && (v.Rejected? && !IsTokenExpired(v.error) && IsJsonWebToken(v.error) ==> r == Stop(401, AuthenticationError, AccessInvalidMessage))
      && (v.Rejected? && !IsJsonWebToken(v.error) ==> r == Stop(500, ServerError, ServerErrorMessage))
    ensures r.Next? <==> Truthy(header) && StartsWith(header.value, "Bearer ") && verify(BearerToken(header.value)).Verified?
  {
    if !Truthy(header) || !StartsWith(header.value, "Bearer ") then
      Stop(401, AuthenticationError, NoTokenMessage)
    else
      match verify(BearerToken(header.value))
      case Verified(userId) => Next(userId)
      case Rejected(e) =>
        if IsTokenExpired(e) then Stop(401, AuthenticationError, AccessExpiredMessage)
        else if IsJsonWebToken(e) then Stop(401, AuthenticationError, AccessInvalidMessage)
        else Stop(500, ServerError, ServerErrorMessage)
  }

  /** Every refusal `authenticate` gives is a 401, except a non-`jsonwebtoken` error, which is a 500. */
  lemma AuthenticateRefusals(header: Option<string>, verify: string -> Verification)
    ensures var r := Authenticate(header, verify);
      r.Stop? ==> (r.status == 401 && r.code == AuthenticationError) || (r.status == 500 && r.code == ServerError)
  {
  }

  /** A token `NotBeforeError` rejects is reported as invalid, not as expired. */
  lemma NotBeforeIsInvalid(t: string, verify: string -> Verification)
    requires ' ' !in t && verify(t) == Rejected(NotBeforeError)
    ensures Authenticate(Some("Bearer " + t), verify) == Stop(401, AuthenticationError, AccessInvalidMessage)
  {
    BearerTokenIsSecondWord(t, "");
  }

  /**
   * `authorize(roles)`: the user lookup fails with a server error when the
   * store throws; a missing user is a 404, checked before the role; a role
   * outside `roles` is a 403; otherwise the request goes on unchanged.
   */
  function Authorize(roles: seq<Role>, userId: Id, s: Snapshot, fails: bool): (r: Step<Id>)
    ensures fails ==> r == Stop(500, ServerError, ServerErrorMessage)
    ensures !fails && RoleOf(s, userId).None? ==> r == Stop(404, NotFound, UserNotFoundMessage)
    ensures !fails && RoleOf(s, userId).Some? && RoleOf(s, userId).value !in roles ==>
      r == Stop(403, AuthorizationError, AccessDeniedMessage)
    ensures r.Next? <==> !fails && RoleOf(s, userId).Some? && RoleOf(s, userId).value in roles
    ensures r.Next? ==> r.ctx == userId
  {
    if fails then Stop(500, ServerError, ServerErrorMessage)
    else match RoleOf(s, userId)
      case None => Stop(404, NotFound, UserNotFoundMessage)
      case Some(role) =>
        if role !in roles then Stop(403, AuthorizationError, AccessDeniedMessage)
        else Next(userId)
  }

  /** The decision depends on the role stored at request time and on nothing else in the store. */
  lemma AuthorizeReadsOnlyRole(roles: seq<Role>, userId: Id, s1: Snapshot, s2: Snapshot, fails: bool)
    requires RoleOf(s1, userId) == RoleOf(s2, userId)
    ensures Authorize(roles, userId, s1, fails) == Authorize(roles, userId, s2, fails)
  {
  }

  /** Admitting more roles never refuses a request that was admitted. */
  lemma AuthorizeMonotone(roles: seq<Role>, more: seq<Role>, userId: Id, s: Snapshot, fails: bool)
    requires forall r :: r in roles ==> r in more
    requires Authorize(roles, userId, s, fails).Next?
    ensures Authorize(more, userId, s, fails).Next?
  {
  }
}
