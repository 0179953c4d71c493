/**
 * `ApiClient`: how the browser client turns a failed request into a message
 * and into per-field validation errors. JavaScript's `||` takes the first
 * truthy operand, so an empty string counts as absent.
 */
module ApiClient {
  import opened Common
  import opened ApiResponse

  /** The fields of an error body the client reads: `message`, `error` and `errors`. */
  datatype ErrorBody = ErrorBody(message: Option<string>, error: Option<string>, errors: Option<map<string, seq<string>>>)

  /** What a request can throw: an HTTP-client error (with the response body, if any), another `Error`, or any other value. */
  datatype RequestError =
    | HttpFailure(body: Option<ErrorBody>, message: string)
    | PlainError(message: string)
    | OtherValue

  /** A string operand of `||` is truthy exactly when it is present and not empty. */
  predicate Truthy(s: Option<string>) {
    s.Some? && s.value != ""
  }

  const FallbackMessage := "An error occurred"
  const UnexpectedMessage := "An unexpected error occurred"

  function BodyMessage(b: Option<ErrorBody>): Option<string> {
    if b.Some? then b.value.message else None
  }

  function BodyError(b: Option<ErrorBody>): Option<string> {
    if b.Some? then b.value.error else None
  }

  /** `getErrorMessage`. */
  function ErrorMessage(f: RequestError): (m: string)
    ensures f.HttpFailure? ==>
      m == (if Truthy(BodyMessage(f.body)) then BodyMessage(f.body).value
            else if Truthy(BodyError(f.body)) then BodyError(f.body).value
            else if f.message != "" then f.message
            else FallbackMessage)
    ensures f.HttpFailure? ==> m != ""
    ensures f.PlainError? ==> m == f.message
    ensures f.OtherValue? ==> m == UnexpectedMessage
  {
    match f
    case HttpFailure(body, message) =>
      var bodyMessage, bodyError := BodyMessage(body), BodyError(body);
      if bodyMessage.Some? && bodyMessage.value != "" then bodyMessage.value
      else if bodyError.Some? && bodyError.value != "" then bodyError.value
      else if message != "" then message
      else FallbackMessage
    case PlainError(message) => message
    case OtherValue => UnexpectedMessage
  }

  /** An empty `message` in the body is skipped over, not shown. */
  lemma EmptyBodyMessageIsSkipped(error: string, message: string)
    requires error != ""
    ensures ErrorMessage(HttpFailure(Some(ErrorBody(Some(""), Some(error), None)), message)) == error
  {
  }

  /** `getValidationErrors`: the body's `errors` when present (any object is truthy), otherwise no errors. */
  function ValidationErrors(f: RequestError): (errs: map<string, seq<string>>)
    ensures !f.HttpFailure? ==> errs == map[]
    ensures f.HttpFailure? && f.body.Some? && f.body.value.errors.Some? ==> errs == f.body.value.errors.value
    ensures f.HttpFailure? && (f.body.None? || f.body.value.errors.None?) ==> errs == map[]
  {
    if f.HttpFailure? && f.body.Some? && f.body.value.errors.Some? then f.body.value.errors.value else map[]
  }

  /**
   * The error body the client sees for a server reply: the server's error
   * envelope has `message` and `error`, and sends field problems as `details`,
   * never as `errors`.
   */
  function BodyOfReply<T>(e: Envelope<T>): (b: ErrorBody)
    ensures b.errors.None?
    ensures e.ErrorEnvelope? ==> b.message == Some(e.message) && b.error == Some(e.error)
  {
    match e
    case SuccessEnvelope(message, _, _) => ErrorBody(Some(message), None, None)
    case ErrorEnvelope(message, error, _) => ErrorBody(Some(message), Some(error), None)
  }

  /**
   * Against this server, `getValidationErrors` is always empty, even for a 400
   * whose envelope carries validation `details`; and the message shown is the
   * envelope's `message`, falling back to `error` when it is empty.
   */
  lemma ServerRepliesHaveNoFieldErrors<T>(r: Response<T>, message: string)
    requires r.body.ErrorEnvelope?
    ensures ValidationErrors(HttpFailure(Some(BodyOfReply(r.body)), message)) == map[]
    ensures r.body.message != "" ==> ErrorMessage(HttpFailure(Some(BodyOfReply(r.body)), message)) == r.body.message
    ensures r.body.message == "" && r.body.error != "" ==>
      ErrorMessage(HttpFailure(Some(BodyOfReply(r.body)), message)) == r.body.error
  {
  }

  /** The validation reply the server sends: its details never reach `getValidationErrors`, and the message shown is "Validation Error". */
  lemma ValidationReplyShowsItsMessage(details: seq<Detail>, message: string)
    requires |details| > 0
    ensures var reply := BadRequest<JsonNull>("Validation error", "Validation Error", Some(details));
      && reply.body.details == Some(details)
      && ValidationErrors(HttpFailure(Some(BodyOfReply(reply.body)), message)) == map[]
      && ErrorMessage(HttpFailure(Some(BodyOfReply(reply.body)), message)) == "Validation Error"
  {
  }
}
