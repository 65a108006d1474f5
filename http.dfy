/**
 * The response shapes shared by every middleware and controller: an error
 * `{ code, message }` with its status, a success status with its body, the
 * middleware decision between calling `next()` and answering, and the
 * refresh-token cookie.
 */
module Http {
  import opened Wrappers

  /** The `code` field of an error response. `ErrorName` carries an upload error's own `name`. */
  datatype ErrorCode =
    | AuthenticationError
    | AuthorizationError
    | NotFound
    | ValidationError
    | BadRequest
    | ServerError
    | ErrorName(name: string)

  /** What a controller answers: a success status and body, or an error status, code and message. */
  datatype Reply<B> =
    | Success(status: nat, body: B)
    | Failure(status: nat, code: ErrorCode, message: string)
  {
    predicate IsFailure(status': nat, code': ErrorCode) {
      Failure? && status == status' && code == code'
    }
  }

  /** What a middleware decides: call `next()` with the (possibly enriched) request, or answer and stop. */
  datatype Step<C> =
    | Next(ctx: C)
    | Stop(status: nat, code: ErrorCode, message: string)

  /** JavaScript truthiness of an optional string field of the request body: present and non-empty. */
  predicate Truthy(v: Option<string>) {
    v.Some? && v.value != ""
  }

  datatype SameSite = Strict | Lax | NoSameSite

  datatype Cookie = Cookie(name: string, value: string, httpOnly: bool, secure: bool, sameSite: SameSite)

  /** The `refreshToken` cookie that register and login set. */
  function RefreshCookie(token: string, nodeEnv: string): (c: Cookie)
    ensures c.name == "refreshToken" && c.value == token
    ensures c.httpOnly && c.sameSite == Strict
    ensures c.secure <==> nodeEnv == "production"
  {
    Cookie("refreshToken", token, true, nodeEnv == "production", Strict)
  }

  const ServerErrorMessage: string := "Internal server error."
  /** The blog, comment and like controllers answer 500 with this text, without the final period. */
  const ServerErrorMessageShort: string := "Internal server error"
  const AccessDeniedMessage: string := "Access denied, you are not authorized to access this resource."
}
