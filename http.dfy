/** What an Express handler does with its response object. */
module Http {
  const OK: int := 200
  const CREATED: int := 201
  const BAD_REQUEST: int := 400
  const UNAUTHORIZED: int := 401
  const FORBIDDEN: int := 403
  const NOT_FOUND: int := 404

  /**
   * `res.status(s).send(body)`, `res.sendStatus(s)` (the status alone), or a
   * handler that returns without answering the request.
   */
  datatype Response<B> = Send(status: int, body: B) | SendStatus(status: int) | NoResponse
}
