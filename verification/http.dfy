/**
 * What an Express handler hands back: a JSON response with a status, an
 * error built by `errorHandler(status, message)` (or an `Error` given a
 * `status`), or any other thrown error forwarded to `next` untouched.
 */
module Http {

  datatype Response<+T> =
    | Ok(status: int, body: T)
    | Failure(status: int, message: string)
    | Forwarded(cause: string)

  const OK := 200
  const CREATED := 201
  const BAD_REQUEST := 400
  const UNAUTHORIZED := 401
  const NOT_FOUND := 404

  /**
   * A label, not a message the runtime prints: it stands for the `TypeError`
   * raised when a handler dereferences the `null` that a lookup by id
   * returns for a missing record.
   */
  const NullRecord := "TypeError: record not found"
}
