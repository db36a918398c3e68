/**
 * The error middleware `errorHandler` and the `ErrorResponse` class it
 * builds: an error raised anywhere in a request becomes an HTTP status and a
 * JSON body `{ success: false, error: <message> }`.
 *
 * The handler starts from a copy of the error, then tests, in this order,
 * for a failed id cast (`CastError`), a duplicate key (code 11000) and a
 * failed schema validation (`ValidationError`); each test that holds
 * replaces the working error, so a later one wins over an earlier one.
 */
module ErrorHandling {
  import opened Wrappers
  import Text

  /** An error object as the handler reads it: an `ErrorResponse` carries a
      status code, a plain `Error` does not. */
  datatype ErrorResponse = ErrorResponse(message: string, statusCode: Option<int>)

  /** The error handed to the handler. `value` is the text of the value that
      failed to cast, `errors` the messages of the failed validations in
      their order, `code` the driver's error code when it is a number. */
  datatype Err = Err(
    name: string,
    code: Option<int>,
    value: string,
    statusCode: Option<int>,
    message: string,
    errors: seq<string>)

  datatype Body = Body(success: bool, error: string)

  datatype Reply = Reply(status: int, body: Body)

  const CastErrorName: string := "CastError"
  const ValidationErrorName: string := "ValidationError"
  const DuplicateKeyCode: int := 11000

  const CastMessagePrefix: string := "Product not found with i.d. of "
  const DuplicateMessage: string := "Duplicate field enetered"
  const FallbackMessage: string := "Server Error"
  const FallbackStatus: int := 500

  /** `new ErrorResponse(message, statusCode)`: the handler answers with
      the code given and the message given, unless either is empty. */
  function NewErrorResponse(message: string, statusCode: int): (e: ErrorResponse)
    ensures StatusOf(e) == if statusCode != 0 then statusCode else FallbackStatus
    ensures MessageOf(e) == if message != [] then message else FallbackMessage
  {
    ErrorResponse(message, Some(statusCode))
  }

  /** `{ ...err }` followed by `error.message = err.message`. */
  function Copy(err: Err): ErrorResponse
  {
    ErrorResponse(err.message, err.statusCode)
  }

  /** `error.statusCode || 500`. */
  function StatusOf(e: ErrorResponse): (status: int)
    ensures status != 0
    ensures e.statusCode.Some? && e.statusCode.value != 0 ==> status == e.statusCode.value
    ensures !(e.statusCode.Some? && e.statusCode.value != 0) ==> status == FallbackStatus
  {
    if e.statusCode.Some? && e.statusCode.value != 0 then e.statusCode.value else FallbackStatus
  }

  /** `error.message || 'Server Error'`. */
  function MessageOf(e: ErrorResponse): (message: string)
    ensures message != []
    ensures e.message != [] ==> message == e.message
    ensures e.message == [] ==> message == FallbackMessage
  {
    if e.message != [] then e.message else FallbackMessage
  }

  /** The text of the validation messages: `ErrorResponse` hands the array
      to `Error`, which turns it into a string by joining with commas. */
  function ValidationMessage(err: Err): string
  {
    Text.Join(err.errors, ',')
  }

  /** The decision chain. `castStatus` is the status code the cast branch
      attaches: none as written, since `new Error(message, 404)` ignores its
      second argument. */
  function HandleWith(err: Err, castStatus: Option<int>): (r: Reply)
    ensures !r.body.success && r.body.error != [] && r.status != 0
    ensures err.name == CastErrorName && err.code != Some(DuplicateKeyCode) ==>
      r == Reply(if castStatus.Some? && castStatus.value != 0 then castStatus.value else FallbackStatus,
                 Body(false, CastMessagePrefix + err.value))
  {
    var error := Copy(err);
    var error := if err.name == CastErrorName then ErrorResponse(CastMessagePrefix + err.value, castStatus) else error;
    var error := if err.code == Some(DuplicateKeyCode) then NewErrorResponse(DuplicateMessage, 400) else error;
    var error := if err.name == ValidationErrorName then NewErrorResponse(ValidationMessage(err), 400) else error;
    Reply(StatusOf(error), Body(false, MessageOf(error)))
  }

  /** `errorHandler` as written. */
  function ErrorHandler(err: Err): (r: Reply)
    ensures !r.body.success && r.body.error != [] && r.status != 0
    ensures err.name == ValidationErrorName ==>
      r.status == 400
      && r.body.error == if ValidationMessage(err) != [] then ValidationMessage(err) else FallbackMessage
    ensures err.name != ValidationErrorName && err.code == Some(DuplicateKeyCode) ==>
      r == Reply(400, Body(false, DuplicateMessage))
    ensures err.name == CastErrorName && err.code != Some(DuplicateKeyCode) ==>
      r == Reply(FallbackStatus, Body(false, CastMessagePrefix + err.value))
    ensures err.name != CastErrorName && err.name != ValidationErrorName && err.code != Some(DuplicateKeyCode) ==>
      r.status == (if err.statusCode.Some? && err.statusCode.value != 0 then err.statusCode.value else FallbackStatus)
      && r.body.error == if err.message != [] then err.message else FallbackMessage
  {
    HandleWith(err, None)
  }

  /** The handler as its author evidently meant it: the cast branch answers
      404, like every other "not found" of the application. */
  function IntendedErrorHandler(err: Err): (r: Reply)
    ensures !r.body.success && r.body.error != [] && r.status != 0
  {
    HandleWith(err, Some(404))
  }

  /** As written, an id that cannot be cast is answered with 500 and a
      "not found" message. */
  lemma CastErrorAnswers500()
    ensures
      var err := Err(CastErrorName, None, "5d713995b721c3bb38c1f5d0x", None, "Cast to ObjectId failed", []);
      ErrorHandler(err).status == 500
      && ErrorHandler(err).body.error == CastMessagePrefix + "5d713995b721c3bb38c1f5d0x"
  {
  }

  /** Corrected, the same error is answered with 404 and the same message. */
  lemma IntendedCastErrorAnswers404(err: Err)
    requires err.name == CastErrorName && err.code != Some(DuplicateKeyCode)
    ensures IntendedErrorHandler(err) == Reply(404, Body(false, CastMessagePrefix + err.value))
  {
  }

  /** The correction changes nothing but the status of a cast error that is
      not also a duplicate key. */
  lemma IntendedDiffersOnlyInCastStatus(err: Err)
    ensures IntendedErrorHandler(err).body == ErrorHandler(err).body
    ensures IntendedErrorHandler(err).status != ErrorHandler(err).status
            <==> err.name == CastErrorName && err.code != Some(DuplicateKeyCode)
  {
  }

  /** A later branch wins: a validation failure is answered the same
      whatever its code, so one that is also a duplicate key is reported as a
      validation failure; and a duplicate key named as a cast error is
      reported as a duplicate key. */
  lemma LaterBranchWins(err: Err)
    ensures err.name == ValidationErrorName ==> ErrorHandler(err) == ErrorHandler(err.(code := None))
    ensures err.code == Some(DuplicateKeyCode) && err.name == ValidationErrorName ==>
      ErrorHandler(err).body.error == if ValidationMessage(err) != [] then ValidationMessage(err) else FallbackMessage
    ensures err.code == Some(DuplicateKeyCode) && err.name == CastErrorName ==>
      ErrorHandler(err) == Reply(400, Body(false, DuplicateMessage))
  {
  }

  /** The reply to a validation failure lists every failed field's message:
      when no message holds a comma, splitting the reply at commas gives the
      messages back, in order. */
  lemma ValidationMessagesRecoverable(err: Err)
    requires err.name == ValidationErrorName
    requires |err.errors| >= 1 && ValidationMessage(err) != []
    requires forall i :: 0 <= i < |err.errors| ==> ',' !in err.errors[i]
    ensures Text.Split(ErrorHandler(err).body.error, ',') == err.errors
  {
    Text.SplitJoin(err.errors, ',');
  }
}
