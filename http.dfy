/** The JSON responses the API routes return: a status code and either an error
    message or a route-specific payload. */
module Http {
  datatype Response<T> = Response(status: nat, body: Body<T>)

  datatype Body<T> = ErrorBody(error: string) | Payload(data: T)

  /** `NextResponse.json({ error: message }, { status })`. */
  function Error<T>(status: nat, message: string): (r: Response<T>)
    ensures r.status == status && r.body == ErrorBody(message)
  {
    Response(status, ErrorBody(message))
  }

  /** The shared `catch` branch of every route. */
  const InternalError: string := "Internal server error"

  /** The answer of a single-row write (`insert`/`upsert` followed by `.select().single()`):
      the stored row's id, an `error` object, or a rejected promise. */
  datatype WriteAnswer<Id> = Stored(id: Id) | WriteError(message: string) | WriteThrew(message: string)
}
