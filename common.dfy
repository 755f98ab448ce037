/** Points in time as the clock reports them: milliseconds since the epoch, as `Date.now` returns. */
module Clock {
  type Time = int
}

/** The status codes the Express router answers with. */
module HttpStatus {
  const OK := 200
  const CREATED := 201
  const NOT_FOUND := 404
  const SERVER_ERROR := 500
}
