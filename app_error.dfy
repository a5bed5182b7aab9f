/** The error values the two Express error handlers receive: a JavaScript
    `Error` with the extra fields Mongoose and jsonwebtoken attach to it. */
module AppErrors {
  import opened Strings

  /** `name`, `message`; `kind` of a cast error; the numeric `code` of a driver
      error; the messages of `err.errors` in order (validation errors); the
      entries of `err.keyValue` (duplicate keys); and the HTTP `status` some
      errors carry. */
  datatype AppError = AppError(
    name: string,
    message: string,
    kind: Option<string>,
    code: Option<int>,
    errors: seq<string>,
    keyValue: seq<(string, string)>,
    status: Option<int>)

  /** The MongoDB error code of a duplicate key. */
  const DUPLICATE_KEY: int := 11000

  predicate IsValidation(err: AppError) { err.name == "ValidationError" }

  predicate IsDuplicate(err: AppError) { err.code == Some(DUPLICATE_KEY) }

  /** `Object.keys(err.keyValue)[0]`, which prints as "undefined" when there is none. */
  function FirstKey(err: AppError): string {
    if err.keyValue == [] then "undefined" else err.keyValue[0].0
  }

  /** `err.keyValue[field]` for that key. */
  function FirstValue(err: AppError): string {
    if err.keyValue == [] then "undefined" else err.keyValue[0].1
  }

  /** A plain error: a name and a message and nothing else. */
  function PlainError(name: string, message: string): AppError {
    AppError(name, message, None, None, [], [], None)
  }
}
