/** The request layer shared by the route handlers: optional body fields,
    JavaScript's truthiness test on them, and the responses a handler sends. */
module Http {

  datatype Option<+T> = None | Some(value: T)

  /** Why a request did not succeed. The global error handler answers every
      thrown error with status 500, so UpstreamError and StorageError share that code. */
  datatype Status = BadRequest | NotFound | UpstreamError | StorageError

  datatype Response<+T> = Success(value: T) | Failure(status: Status)

  function Code(s: Status): (code: int)
    ensures code == 400 <==> s == BadRequest
    ensures code == 404 <==> s == NotFound
    ensures code == 500 <==> s.UpstreamError? || s.StorageError?
  {
    match s
    case BadRequest => 400
    case NotFound => 404
    case UpstreamError => 500
    case StorageError => 500
  }

  /** `!value` is false for a text field: it is present and not the empty string. */
  predicate TruthyText(s: Option<string>)
  {
    s.Some? && s.value != ""
  }

  /** `!value` is false for a numeric field: it is present and not 0. */
  predicate TruthyId(n: Option<int>)
  {
    n.Some? && n.value != 0
  }

  /** `value || null` for an optional text column. */
  function OrNull(s: Option<string>): (r: Option<string>)
    ensures r.None? <==> !TruthyText(s)
    ensures r.Some? ==> r == s
  {
    if TruthyText(s) then s else None
  }
}
