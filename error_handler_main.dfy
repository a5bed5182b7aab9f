/** campus-connect-backend-main/utils/errorHandler.js: the JSON error body
    `{ success: false, error }`, the 404 reply for unknown routes and the
    catch-all error handler. */
module MainErrorHandler {
  import opened Strings
  import opened AppErrors

  /** `res.status(code).json({ success: false, error: message })` */
  datatype ErrorReply = ErrorReply(status: int, success: bool, error: string)

  /** `errorResponse(res, code, message)` */
  function ErrorResponse(code: int, message: string): (r: ErrorReply)
    ensures !r.success && r.status == code && r.error == message
  {
    ErrorReply(code, false, message)
  }

  /** `notFoundHandler(req, res, next)` for `req.originalUrl`. */
  function NotFound(originalUrl: string): (r: ErrorReply)
    ensures r.status == 404 && !r.success
    ensures IsPrefix("Route ", r.error) && IsSuffix(" not found", r.error)
  {
    var msg := "Route " + originalUrl + " not found";
    assert msg[..6] == "Route ";
    assert msg[|msg| - 10..] == " not found";
    ErrorResponse(404, msg)
  }

  /** The URL can be read back from the 404 message. */
  lemma NotFoundNamesRoute(originalUrl: string)
    ensures var e := NotFound(originalUrl).error;
            e[6..|e| - 10] == originalUrl
  {
  }

  /** `generalErrorHandler(err, req, res, next)` */
  function GeneralErrorHandler(err: AppError): (r: ErrorReply)
    ensures !r.success
    ensures r.status != 0
    ensures (IsValidation(err) || IsDuplicate(err)) ==> r.status == 400
  {
    if IsValidation(err) then ErrorResponse(400, Join(err.errors, ", "))
    else if IsDuplicate(err) then ErrorResponse(400, FirstKey(err) + " already exists")
    else
      var status := if err.status.None? || err.status == Some(0) then 500 else err.status.value;
      ErrorResponse(status, if err.message == "" then "Internal Server Error" else err.message)
  }

  /** A validation error reports every field message, in order. */
  lemma ValidationListsEveryMessage(err: AppError, i: nat)
    requires IsValidation(err) && i < |err.errors|
    ensures Contains(GeneralErrorHandler(err).error, err.errors[i])
  {
    JoinContainsPart(err.errors, ", ", i);
  }

  /** A duplicate key names the field that clashed. */
  lemma DuplicateNamesField(err: AppError)
    requires !IsValidation(err) && IsDuplicate(err)
    ensures IsPrefix(FirstKey(err), GeneralErrorHandler(err).error)
    ensures IsSuffix(" already exists", GeneralErrorHandler(err).error)
  {
    var e := FirstKey(err) + " already exists";
    assert e[..|FirstKey(err)|] == FirstKey(err);
    assert e[|e| - 15..] == " already exists";
  }

  /** Any other error keeps its own status and message, falling back to 500 and
      "Internal Server Error". */
  lemma OtherErrorsKeepStatus(err: AppError)
    requires !IsValidation(err) && !IsDuplicate(err)
    ensures var r := GeneralErrorHandler(err);
            (err.status.Some? && err.status.value != 0 ==> r.status == err.status.value)
            && (err.status.None? || err.status == Some(0) ==> r.status == 500)
            && (r.error == if err.message == "" then "Internal Server Error" else err.message)
  {
  }
}
