/**
 * The outcome of verifying a JSON Web Token, as the `jsonwebtoken` package
 * reports it: the payload's `userId`, or a thrown error. `TokenExpiredError`
 * and `NotBeforeError` are subclasses of `JsonWebTokenError`, so an
 * `instanceof JsonWebTokenError` test also accepts them; the handlers test for
 * the expired case first.
 */
module Jwt {
  import opened Wrappers

  datatype JwtError =
    | TokenExpiredError
    | NotBeforeError
    | JsonWebTokenError
    /** Anything else thrown while verifying (not a `jsonwebtoken` error). */
    | OtherError

  /** `error instanceof TokenExpiredError`. */
  predicate IsTokenExpired(e: JwtError) {
    e.TokenExpiredError?
  }

  /** `error instanceof JsonWebTokenError`, which holds for its subclasses too. */
  predicate IsJsonWebToken(e: JwtError) {
    e.TokenExpiredError? || e.NotBeforeError? || e.JsonWebTokenError?
  }

  datatype Verification =
    | Verified(userId: Id)
    | Rejected(error: JwtError)

  /**
   * The signing and verifying functions of `@/libs/jwt` for one kind of
   * token (access or refresh); the library itself is not part of this model,
   * so they are given as parameters.
   */
  datatype Codec = Codec(sign: Id -> string, verify: string -> Verification)
}
