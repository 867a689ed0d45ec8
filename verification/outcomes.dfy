/** Optional values and the typed outcome of every handler. */
module Outcomes {

  datatype Option<+T> = None | Some(value: T)

  /** One variant per way a request can be turned away. The HTTP layer maps
      them to 400, 401, 401, 403, 404, 409, 401 and 500 respectively. */
  datatype Error =
    | Validation       // a required field is absent or empty
    | MissingToken     // no Authorization header, or an empty one
    | InvalidToken     // bad signature, malformed, expired or without a user id
    | Forbidden        // authenticated, but not the owner
    | NotFound         // no such row
    | Conflict         // the email is already registered
    | BadCredentials   // login failed; the same for unknown email and wrong password
    | ServerError      // the handler raises and the framework answers 500

  datatype Response<+T> = Ok(value: T) | Fail(error: Error)
}
