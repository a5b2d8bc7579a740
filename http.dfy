/** The reply shapes of the FastAPI routers: a value, an `HTTPException`
    with status 404 and a detail message, or the status-422 answer with which
    FastAPI refuses a query parameter that fails its declared validation. */
module Http {

  datatype Reply<+T> = Ok(value: T) | NotFound(detail: string) | Unprocessable(parameter: string)

  /** The message of a region lookup that finds nothing: the 404 detail of
      the region router and the `error` value of the region statistics. */
  const REGION_NOT_FOUND: string := "Région non trouvée"

  /** The HTTP status code the client sees. */
  function Status<T>(r: Reply<T>): (code: int)
    ensures code == 200 <==> r.Ok?
    ensures code == 404 <==> r.NotFound?
    ensures code == 422 <==> r.Unprocessable?
  {
    match r
    case Ok(_) => 200
    case NotFound(_) => 404
    case Unprocessable(_) => 422
  }
}
