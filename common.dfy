/** Shared value types: optional values, the controllers' error answers and
    the client's view of a server call. */
module Common {

  /** `null`/`undefined` versus a present value. */
  datatype Option<T> = None | Some(value: T)

  /** Ids are Mongo ObjectIds, keys are uuid strings; both are opaque strings here. */
  type Id = string
  type Key = string

  /** The HTTP status classes the controllers answer with (400, 401, 404, 500). */
  datatype Code = BadRequest | Unauthorized | NotFound | ServerError

  /** A controller's answer: the JSON body of a 2xx reply, or a status with `{ message }`. */
  datatype Result<T> = Ok(value: T) | Fail(code: Code, message: string)

  /** The reply every handler's `catch` block sends. */
  const ServerErrorMessage := "Server error"

  /** JavaScript truthiness of an optional string: `undefined`, `null` and `""` are falsy. */
  predicate Truthy(o: Option<string>)
  {
    o.Some? && o.value != ""
  }

  /** `a ?? b`: the value when present, otherwise the default. */
  function OrElse<T>(o: Option<T>, default: T): T
  {
    match o
    case Some(v) => v
    case None => default
  }

  /** `a || null` on an optional string: a falsy value collapses to `null`. */
  function TruthyOrNull(o: Option<string>): (r: Option<string>)
    ensures r.Some? <==> Truthy(o)
    ensures r.Some? ==> r == o
  {
    if Truthy(o) then o else None
  }

  /** What an axios call yields to a client store: the response data, or an error
      whose `err.response?.data?.message` may be missing. */
  datatype Response<T> = Success(data: T) | Failure(serverMessage: Option<string>)

  /** `err.response?.data?.message || fallback`. */
  function ErrorMessage<T>(resp: Response<T>, fallback: string): (m: string)
    requires resp.Failure?
    ensures Truthy(resp.serverMessage) ==> m == resp.serverMessage.value
    ensures !Truthy(resp.serverMessage) ==> m == fallback
  {
    if Truthy(resp.serverMessage) then resp.serverMessage.value else fallback
  }
}
