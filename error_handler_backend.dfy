/** backend/middleware/errorHandler.js: turns any error into a friendly
    `{ answer }` reply, choosing the wording by error kind and then by route. */
module BackendErrorHandler {
  import opened Strings
  import opened AppErrors

  const DEFAULT_MESSAGE := "Something went wrong. Please try again."
  const INVALID_ID := "Invalid ID format. Please check the request and try again."
  const MISSING_DATA := "Some required data is missing. Please check and resend."
  const EMAIL_TAKEN := "An account with this email already exists. Try logging in."
  const BAD_TOKEN := "Invalid token. Please log in again."
  const TOKEN_EXPIRED := "Your session has expired. Please log in again."
  const AI_SLOW := "The AI is slow to respond – please try again shortly."
  const AI_TROUBLE := "The AI had trouble generating that. Try rephrasing your question."
  const AI_INVALID := "I couldn't get a valid AI response right now. Please try again."
  const NO_DEPARTMENT := "That department doesn't exist. Try another name or check spelling."
  const DEPARTMENT_UNAVAILABLE := "Couldn't fetch department details right now. Try again later."
  const NO_MATERIAL := "No study material found for that query. Try different keywords."
  const BAD_LOGIN := "Invalid email or password. Please try again."
  const DATABASE_ISSUE := "Database connection issue – please retry in a few seconds."
  const NETWORK_ISSUE := "Network issue detected – please check your internet connection."

  /** The reply: status code and the `answer` field of the body; a handler
      that meets a validation error without any entry fails itself. */
  datatype Reply = Reply(status: int, answer: string) | HandlerFails

  /** `res.statusCode === 200 ? 500 : res.statusCode` */
  function StatusFor(current: int): (s: int)
    ensures s != 200
    ensures current != 200 ==> s == current
  {
    if current == 200 then 500 else current
  }

  /** `A ${field} "${value}" already exists.` */
  function DuplicateMessage(err: AppError): string {
    if FirstKey(err) == "email" then EMAIL_TAKEN
    else "A " + FirstKey(err) + " \"" + FirstValue(err) + "\" already exists."
  }

  /** The wording chosen for a route-specific error; `path` is already lower
      case. There is one exactly on the four special routes, each route with
      its own replies, the first matching route deciding. */
  function RouteMessage(lowerMessage: string, path: string): (r: Option<string>)
    ensures r.Some? <==> Contains(path, "/ai") || Contains(path, "/departments")
                         || Contains(path, "/studyhub") || Contains(path, "/auth")
    ensures Contains(path, "/ai") ==> r.value in {AI_SLOW, AI_TROUBLE, AI_INVALID}
    ensures !Contains(path, "/ai") && Contains(path, "/departments") ==>
              r.value in {NO_DEPARTMENT, DEPARTMENT_UNAVAILABLE, DEFAULT_MESSAGE}
    ensures !Contains(path, "/ai") && !Contains(path, "/departments") && Contains(path, "/studyhub") ==>
              r.value in {NO_MATERIAL, DEFAULT_MESSAGE}
    ensures (!Contains(path, "/ai") && !Contains(path, "/departments") && !Contains(path, "/studyhub")
             && Contains(path, "/auth")) ==> r.value in {BAD_LOGIN, DEFAULT_MESSAGE}
  {
    if Contains(path, "/ai") then
      Some(if Contains(lowerMessage, "timeout") || Contains(lowerMessage, "fetch") || Contains(lowerMessage, "network")
           then AI_SLOW
           else if Contains(lowerMessage, "gemini") || Contains(lowerMessage, "generate") || Contains(lowerMessage, "ai")
           then AI_TROUBLE
           else AI_INVALID)
    else if Contains(path, "/departments") then
      Some(if Contains(lowerMessage, "not found") || Contains(lowerMessage, "department") then NO_DEPARTMENT
           else if Contains(lowerMessage, "fetch") || Contains(lowerMessage, "database") then DEPARTMENT_UNAVAILABLE
           else DEFAULT_MESSAGE)
    else if Contains(path, "/studyhub") then
      Some(if Contains(lowerMessage, "not found") || Contains(lowerMessage, "resource") then NO_MATERIAL
           else DEFAULT_MESSAGE)
    else if Contains(path, "/auth") then
      Some(if Contains(lowerMessage, "credential") || Contains(lowerMessage, "password") then BAD_LOGIN
           else DEFAULT_MESSAGE)
    else None
  }

  /** The wording for an error of no special kind on no special route. */
  function GeneralMessage(message: string): string {
    var lower := ToLower(message);
    if Contains(lower, "mongo") || Contains(lower, "connect") then DATABASE_ISSUE
    else if Contains(lower, "network") || Contains(lower, "fetch") then NETWORK_ISSUE
    else if message != "" && !Contains(lower, "stack") then message
    else DEFAULT_MESSAGE
  }

  /** Errors recognised by their kind, before any look at the route: such an
      error gets the same reply on every route. */
  predicate ByKind(err: AppError): (b: bool)
    ensures b ==> forall status, url :: HandleError(err, status, url) == HandleError(err, status, "")
  {
    (err.name == "CastError" && err.kind == Some("ObjectId"))
    || IsValidation(err) || IsDuplicate(err)
    || err.name == "JsonWebTokenError" || err.name == "TokenExpiredError"
  }

  /** `errorHandler(err, req, res, next)`; `currentStatus` is `res.statusCode`
      and `originalUrl` is `req.originalUrl`. */
  function HandleError(err: AppError, currentStatus: int, originalUrl: string): (r: Reply)
    ensures r.HandlerFails? <==> IsValidation(err) && err.errors == []
    ensures r.Reply? ==> r.status == StatusFor(currentStatus)
  {
    var status := StatusFor(currentStatus);
    var path := ToLower(originalUrl);
    if err.name == "CastError" && err.kind == Some("ObjectId") then Reply(status, INVALID_ID)
    else if IsValidation(err) then
      if err.errors == [] then HandlerFails
      else Reply(status, if Contains(err.errors[0], "required") then MISSING_DATA else err.errors[0])
    else if IsDuplicate(err) then Reply(status, DuplicateMessage(err))
    else if err.name == "JsonWebTokenError" then Reply(status, BAD_TOKEN)
    else if err.name == "TokenExpiredError" then Reply(status, TOKEN_EXPIRED)
    else
      match RouteMessage(ToLower(err.message), path)
      case Some(m) => Reply(status, m)
      case None => Reply(status, GeneralMessage(err.message))
  }

  /** Route matching ignores letter case in the URL. */
  lemma RouteCaseInsensitive(err: AppError, currentStatus: int, url: string)
    ensures HandleError(err, currentStatus, url) == HandleError(err, currentStatus, ToLower(url))
  {
    ToLowerIdempotent(url);
  }

  /** A cast error on an ObjectId is reported as a malformed id. */
  lemma CastErrorReply(err: AppError, currentStatus: int, url: string)
    requires err.name == "CastError" && err.kind == Some("ObjectId")
    ensures HandleError(err, currentStatus, url) == Reply(StatusFor(currentStatus), INVALID_ID)
  {
  }

  /** A token that does not verify asks for a new login. */
  lemma JsonWebTokenReply(err: AppError, currentStatus: int, url: string)
    requires err.name == "JsonWebTokenError" && !IsDuplicate(err)
    ensures HandleError(err, currentStatus, url) == Reply(StatusFor(currentStatus), BAD_TOKEN)
  {
  }

  /** An expired token says the session has expired. */
  lemma TokenExpiredReply(err: AppError, currentStatus: int, url: string)
    requires err.name == "TokenExpiredError" && !IsDuplicate(err)
    ensures HandleError(err, currentStatus, url) == Reply(StatusFor(currentStatus), TOKEN_EXPIRED)
  {
  }

  /** On an AI route, an error of no recognised kind gets one of the three AI
      replies, never its own message. */
  lemma AiRouteReplies(err: AppError, currentStatus: int, url: string)
    requires !ByKind(err) && Contains(ToLower(url), "/ai")
    ensures HandleError(err, currentStatus, url).Reply?
    ensures HandleError(err, currentStatus, url).answer in {AI_SLOW, AI_TROUBLE, AI_INVALID}
  {
  }

  /** A validation error whose first message mentions a required field is
      reported as missing data; any other first message is echoed. */
  lemma ValidationFirstMessage(err: AppError, currentStatus: int, url: string)
    requires IsValidation(err) && err.errors != []
    ensures HandleError(err, currentStatus, url)
         == Reply(StatusFor(currentStatus),
                  if Contains(err.errors[0], "required") then MISSING_DATA else err.errors[0])
  {
  }

  /** Off the special routes, an error's own message is echoed exactly when it is
      non-empty and mentions no database, network or stack trace. */
  lemma OwnMessageEchoed(err: AppError, currentStatus: int, url: string)
    requires !ByKind(err) && RouteMessage(ToLower(err.message), ToLower(url)).None?
    ensures var lower := ToLower(err.message);
            var r := HandleError(err, currentStatus, url);
            var technical := Contains(lower, "mongo") || Contains(lower, "connect")
                             || Contains(lower, "network") || Contains(lower, "fetch");
            r.Reply?
            && (!technical && err.message != "" && !Contains(lower, "stack") ==> r.answer == err.message)
            && (!technical && (err.message == "" || Contains(lower, "stack")) ==> r.answer == DEFAULT_MESSAGE)
            && (technical ==> r.answer in {DATABASE_ISSUE, NETWORK_ISSUE})
  {
  }

  /** Every word the department, study hub and auth routes look for. */
  const ROUTE_WORDS: seq<string> := ["not found", "department", "fetch", "database", "resource", "credential", "password"]

  /** On the department, study hub and auth routes the route branch has the last
      word: a message with none of their words gets the default reply, even one
      about the database or the network, or one that would be echoed elsewhere. */
  lemma RouteDefaultStops(err: AppError, currentStatus: int, url: string)
    requires !ByKind(err) && !Contains(ToLower(url), "/ai")
    requires Contains(ToLower(url), "/departments") || Contains(ToLower(url), "/studyhub") || Contains(ToLower(url), "/auth")
    requires !ContainsAny(ToLower(err.message), ROUTE_WORDS)
    ensures HandleError(err, currentStatus, url) == Reply(StatusFor(currentStatus), DEFAULT_MESSAGE)
  {
    var lower := ToLower(err.message);
    assert !Contains(lower, ROUTE_WORDS[0]) && !Contains(lower, ROUTE_WORDS[1]) && !Contains(lower, ROUTE_WORDS[2]);
    assert !Contains(lower, ROUTE_WORDS[3]) && !Contains(lower, ROUTE_WORDS[4]) && !Contains(lower, ROUTE_WORDS[5]);
    assert !Contains(lower, ROUTE_WORDS[6]);
  }

  /** A duplicate key on any field but `email` is reported with the field and
      its value. */
  lemma DuplicateNamesField(err: AppError, currentStatus: int, url: string, field: string, value: string)
    requires !(err.name == "CastError" && err.kind == Some("ObjectId")) && !IsValidation(err) && IsDuplicate(err)
    requires err.keyValue != [] && err.keyValue[0] == (field, value) && field != "email"
    ensures HandleError(err, currentStatus, url)
         == Reply(StatusFor(currentStatus), "A " + field + " \"" + value + "\" already exists.")
    ensures Contains(HandleError(err, currentStatus, url).answer, value)
  {
    var answer := "A " + field + " \"" + value + "\" already exists.";
    PrefixContained(value, "\" already exists.");
    ContainsInRight("A " + field + " \"", value + "\" already exists.", value);
    assert answer == ("A " + field + " \"") + (value + "\" already exists.");
  }

  /** A duplicate e-mail is reported without echoing the address. */
  lemma DuplicateEmailHidden(err: AppError, currentStatus: int, url: string, address: string)
    requires !(err.name == "CastError" && err.kind == Some("ObjectId")) && !IsValidation(err)
    requires err.keyValue == [("email", address)] && IsDuplicate(err)
    ensures HandleError(err, currentStatus, url) == Reply(StatusFor(currentStatus), EMAIL_TAKEN)
  {
  }
}
