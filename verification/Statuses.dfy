/** The HTTP statuses the bridge answers with. */
module Statuses {
  const OK := 200
  const CREATED := 201
  const NO_CONTENT := 204
  const MULTI_STATUS := 207
  const BAD_REQUEST := 400
  const FORBIDDEN := 403
  const NOT_FOUND := 404
  const CONFLICT := 409
  const PRECONDITION_FAILED := 412
  const INTERNAL_ERROR := 500
  const BAD_GATEWAY := 502
  const UNAVAILABLE := 503
}
