/**
 * `ApiResponse`: every server reply is a status code and one of two JSON
 * envelopes, `{ message, data, pagination? }` or `{ message, error, details? }`.
 */
module ApiResponse {
  import opened Common
  import opened Pagination

  /** One entry of `details`: the dotted path of a field and what is wrong with it. */
  datatype Detail = Detail(path: string, message: string)

  /** The JSON body of a reply carrying data of type `T`. */
  datatype Envelope<+T> =
    | SuccessEnvelope(message: string, data: T, pagination: Option<PaginationMeta>)
    | ErrorEnvelope(message: string, error: string, details: Option<seq<Detail>>)

  datatype Response<+T> = Response(status: int, body: Envelope<T>)

  /** The JSON `null` that a delete sends as its data. */
  datatype JsonNull = JsonNull

  /**
   * `success`: `message` and `data` always, `pagination` exactly when one is
   * passed (a pagination object is always truthy).
   */
  function SuccessReply<T>(data: T, message: string := "Success", statusCode: int := 200,
                           pagination: Option<PaginationMeta> := None): (r: Response<T>)
    ensures r.status == statusCode
    ensures r.body.SuccessEnvelope? && r.body.message == message && r.body.data == data
    ensures r.body.pagination.Some? <==> pagination.Some?
    ensures r.body.pagination == pagination
  {
    Response(statusCode, SuccessEnvelope(message, data, pagination))
  }

  /** `error`: `message` and `error` always, `details` only when the list is given and not empty. */
  function ErrorReply<T>(error: string, message: string := "Error", statusCode: int := 500,
                         details: Option<seq<Detail>> := None): (r: Response<T>)
    ensures r.status == statusCode
    ensures r.body.ErrorEnvelope? && r.body.message == message && r.body.error == error
    ensures r.body.details.Some? <==> details.Some? && |details.value| > 0
    ensures r.body.details.Some? ==> r.body.details == details
  {
    var kept := if details.Some? && |details.value| > 0 then details else None;
    Response(statusCode, ErrorEnvelope(message, error, kept))
  }

  /** `created`: a success reply with status 201. */
  function Created<T>(data: T, message: string := "Resource created successfully"): (r: Response<T>)
    ensures r == SuccessReply(data, message, 201)
  {
    SuccessReply(data, message, 201)
  }

  function NotFound<T>(error: string := "Resource not found", message: string := "Not Found"): (r: Response<T>)
    ensures r.status == 404 && r.body == ErrorEnvelope(message, error, None)
  {
    ErrorReply(error, message, 404)
  }

  function Unauthorized<T>(error: string := "Unauthorized", message: string := "Unauthorized"): (r: Response<T>)
    ensures r.status == 401 && r.body == ErrorEnvelope(message, error, None)
  {
    ErrorReply(error, message, 401)
  }

  function Forbidden<T>(error: string := "Forbidden", message: string := "Forbidden"): (r: Response<T>)
    ensures r.status == 403 && r.body == ErrorEnvelope(message, error, None)
  {
    ErrorReply(error, message, 403)
  }

  /** `badRequest`: status 400, with the details forwarded to `error` unchanged. */
  function BadRequest<T>(error: string := "Bad Request", message: string := "Bad Request",
                         details: Option<seq<Detail>> := None): (r: Response<T>)
    ensures r == ErrorReply(error, message, 400, details)
  {
    ErrorReply(error, message, 400, details)
  }

  function InternalServerError<T>(error: string := "Internal server error",
                                  message: string := "Internal Server Error"): (r: Response<T>)
    ensures r.status == 500 && r.body == ErrorEnvelope(message, error, None)
  {
    ErrorReply(error, message, 500)
  }

  /** A reply is consistent when a success envelope goes with a status below 400 and an error envelope with one from 400 up. */
  predicate Consistent<T>(r: Response<T>) {
    r.body.SuccessEnvelope? <==> r.status < 400
  }

  /** The canned error replies are consistent, and an error reply never carries an empty `details` list. */
  lemma CannedRepliesConsistent<T>(error: string, message: string, details: Option<seq<Detail>>)
    ensures Consistent(NotFound<T>(error, message)) && Consistent(Unauthorized<T>(error, message))
    ensures Consistent(Forbidden<T>(error, message)) && Consistent(InternalServerError<T>(error, message))
    ensures Consistent(BadRequest<T>(error, message, details))
    ensures BadRequest<T>(error, message, details).body.details != Some([])
  {
  }
}
