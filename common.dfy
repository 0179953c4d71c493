/** Small value types shared by the server and the web client models. */
module Common {

  /** A value that may be missing (`undefined` in the source). */
  datatype Option<+T> = None | Some(value: T) {
    function GetOr(default: T): T {
      match this
      case Some(v) => v
      case None => default
    }
  }

  /** A success value or the exception a call threw. */
  datatype Result<+T, +E> = Success(value: T) | Failure(error: E)

  /** A field of a partial update: left out, explicitly `null`, or given a value. */
  datatype Patch<+T> = Omitted | ToNull | Given(value: T)

  /**
   * What a `throw` carries. Services throw `new Error(message)`; the controllers
   * tell errors apart by `instanceof Error` and by the message text.
   */
  datatype Thrown = Thrown(isError: bool, message: string)

  function ErrorWith(message: string): (t: Thrown)
    ensures t.isError && t.message == message
  {
    Thrown(true, message)
  }
}
