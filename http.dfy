/** The status code and the `error`/`message` text of a route's JSON reply. */
module Http {

  datatype Reply = Reply(code: int, text: string)

  const OK := 200
  const CREATED := 201
  const BAD_REQUEST := 400
  const UNAUTHORIZED := 401
  const FORBIDDEN := 403
  const NOT_FOUND := 404
  const SERVER_ERROR := 500

  /** What Flask answers when a handler raises (KeyError, TypeError, a refused commit). */
  const ServerError := Reply(SERVER_ERROR, "Internal Server Error")

  /** What `get_or_404` aborts with. */
  const NotFound := Reply(NOT_FOUND, "Not Found")
}
