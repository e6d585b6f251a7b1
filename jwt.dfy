/**
 * The interface of the token library as the handlers see it. Signing and
 * verification are not modelled: callers receive them as function values.
 */
module Jwt {

  /** The payload login signs and the guard reads back. */
  datatype Claims = Claims(userId: int, username: string, email: string)

  /**
   * Outcome of `jwt.verify(token, secret)`: the decoded payload, or the
   * thrown error classified by its `name` (JsonWebTokenError,
   * TokenExpiredError, anything else).
   */
  datatype Verification = Verified(claims: Claims) | InvalidToken | ExpiredToken | OtherFailure
}
