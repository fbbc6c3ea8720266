/** What the handlers hand back to the web framework, what they read from the
    graph store, and the identity the login middleware leaves in the request
    context. */
module Http {
  import opened Wrappers
  import opened Bytes

  const StatusOK: int := 200
  const StatusNoContent: int := 204
  const StatusBadRequest: int := 400
  const StatusUnauthorized: int := 401
  const StatusNotFound: int := 404
  const StatusRequestTimeout: int := 408
  const StatusInternalServerError: int := 500

  /** The generic message every store or codec failure is reported with. */
  const SomethingWentWrong: string := "something went wrong. Try again"

  /** A response body: none, `{"error": msg}`, a handler-specific JSON value,
      or the framework's own 500 page (a recovered panic, or a value that
      could not be serialised). */
  datatype Body<T> = NoBody | ErrorBody(msg: string) | Payload(value: T) | EchoError

  datatype Reply<T> = Reply(status: int, body: Body<T>)

  /** What a read query gives back: an error from the store (with its
      message), a response that does not decode into the expected rows, or the
      rows. */
  datatype StoreRead<T> = QueryFailed(err: Bytes) | Undecodable | Rows(value: T)

  /** A decoded JSON object, kept as its compact text. */
  datatype JsonObject = JsonObject(compact: Bytes)

  /** The user the login middleware put in the request context under
      "logged-in-user", "logged-in-user-uid" and "logged-in-user-email". */
  datatype Identity = Identity(name: Bytes, uid: Bytes, email: Bytes)

  function ContextCanceled(): Bytes { Lit("context canceled") }

  function DeadlineExceeded(): Bytes { Lit("context deadline exceeded") }

  /** The response for a failed query on a path that runs under a timeout: a
      cancelled caller gets no body and 204, an expired deadline no body and
      408, anything else the generic 500. */
  function ClassifyQueryError<T>(err: Bytes): (r: Reply<T>)
    ensures r.status == StatusNoContent <==> Contains(err, ContextCanceled())
    ensures r.status == StatusRequestTimeout <==>
      !Contains(err, ContextCanceled()) && Contains(err, DeadlineExceeded())
    ensures r.status in {StatusNoContent, StatusRequestTimeout, StatusInternalServerError}
    ensures r.body == NoBody <==> r.status != StatusInternalServerError
    ensures r.body != NoBody ==> r.body == ErrorBody(SomethingWentWrong)
  {
    if Contains(err, ContextCanceled()) then Reply(StatusNoContent, NoBody)
    else if Contains(err, DeadlineExceeded()) then Reply(StatusRequestTimeout, NoBody)
    else Reply(StatusInternalServerError, ErrorBody(SomethingWentWrong))
  }
}
