/** The HTTP status codes the controllers answer with. */
module Http {
  const OK := 200
  const CREATED := 201
  const NO_CONTENT := 204
  const UNAUTHORIZED := 401
  const FORBIDDEN := 403
  const INTERNAL_SERVER_ERROR := 500
}
