/** The responses the route handlers build with `NextResponse.json`. */
module Http {

  const StatusOk := 200
  const StatusBadRequest := 400
  const StatusServerError := 500

  /** A JSON response body: either the data, or an `{ error: ... }` object. */
  datatype Body<+T> = Data(value: T) | ErrorMessage(error: string)

  datatype Reply<+T> = Reply(status: int, body: Body<T>) {
    /** The `response.ok` test a client applies: a status in 200..299. */
    predicate Ok()
    {
      200 <= status < 300
    }
  }

  /** `NextResponse.json(value)`: status 200 by default. */
  function Success<T>(value: T): (r: Reply<T>)
    ensures r.Ok() && r.body == Data(value)
  {
    Reply(StatusOk, Data(value))
  }

  /** `NextResponse.json({ error }, { status })`. */
  function Failure<T>(status: int, error: string): (r: Reply<T>)
    requires status >= 400
    ensures !r.Ok() && r.status == status && r.body == ErrorMessage(error)
  {
    Reply(status, ErrorMessage(error))
  }

  /** A handler's outcome: the reply and the store as it is afterwards. */
  datatype Handled<+T, +S> = Handled(reply: Reply<T>, store: S)
}
