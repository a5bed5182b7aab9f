# CampusConnect backend core in Dafny

CampusConnect is the campus assistant of MMMUT. Students ask it where a department is, how to walk from one building to another, and which study notes exist. It answers in text or as speech, in English or Hindi. It also hosts a StudyHub: students upload notes, and an administrator approves or rejects each upload before the public sees it. The repository has two Express backends, `backend/` and `campus-connect-backend-main/`. This project models the deterministic core of both and proves properties of the model:

- **Voice bridge** (`backend/utils/voiceUtils.js`).
  - `VoiceText`: the text rewrite pipeline run before synthesis, the cache key and file name, language normalisation, and the four-way classification of synthesis failures.
  - `VoiceDir`: the voice-file directory as a class over a sequence of `(name, mtime)` entries. It covers the cache lookup of `textToSpeech`, which reuses a fresh file and deletes stale ones, and `cleanupOldFiles`, which keeps the five newest voice files. The clock is a parameter `now`.
- **Map links** (`MapUtils`, `backend/utils/mapUtils.js`).
- **Assistants.**
  - `AiControllerMain` models the intent chains of `askAI` and `askAIWithVoice` and the bilingual sentence builders of `campus-connect-backend-main/controllers/aiController.js`.
  - `AiControllerBackend` models `responseBuilder` and the routing chain of `backend/controllers/aiController.js`.
  - What the handlers ask of the outside world is a record of inputs. It holds the regular-expression captures, the collections, the router, the distance, the language model, text-to-speech and the file check.
- **Error translators.** `BackendErrorHandler` is `backend/middleware/errorHandler.js`. `MainErrorHandler` is `campus-connect-backend-main/utils/errorHandler.js`.
- **Records.**
  - `ResourceModel` and `DepartmentModel` cover the schema casts and constraints of `Resource.js` and `Department.js`.
  - Each also has a store class over the collection, with the in-place counter methods.
  - `Joi` holds request bodies and the few Joi rules the validators use. `DepartmentValidator` and `ResourceValidator` are the two Joi schemas, as message-producing functions.
- **Controllers.** `DepartmentController`, `StudyHubController` and `AdminRoutes` cover listing, lookup, creation, update, deletion, search and moderation over the stores.
- **Accounts.** `Users` is the account collection. `AuthController` covers registration and login. `AuthMiddleware` covers `protect` and `admin`. The bcrypt hash, `bcrypt.compare`, `jwt.sign` and `jwt.verify` are parameters.

`Strings` (shared text helpers, `Option` and `Result`) and `AppErrors` (the error value the handlers receive) support the rest.

JavaScript's `||` and `?:` treat an empty string, 0, null and undefined as false. In the model an unset field is `None`, and `Given(x)` means set and non-empty. Case mapping is ASCII-only.

## Model

| member | source | states |
|---|---|---|
| MapUtils.GetMapUrl | backend/utils/mapUtils.js:7-12 | a link exists exactly when both arguments are numbers |
| MapUtils.NoSeparators | backend/utils/mapUtils.js:11 | a printed number holds no `&` and no `#`, so it cannot cut the link's parts short |
| MapUtils.ShowChars | backend/utils/mapUtils.js:11 | a printed number consists of digits, the sign, the point and the letters of `NaN` and `Infinity` |
| MapUtils.ParseShow | backend/utils/mapUtils.js:11 | reading back a printed number gives the number |
| MapUtils.ParseMapUrlSplits | backend/utils/mapUtils.js:11 | a link is read back by splitting after `mlat=` at the first `&` and after `mlon=` at the first `#` |
| MapUtils.MapUrlRoundTrip | backend/utils/mapUtils.js:7-12 | the link made for two numbers is defined and carries exactly those two numbers as `mlat` and `mlon` |
| MapUtils.Get360Link | backend/utils/mapUtils.js:19-24 | a link is returned exactly for a string whose trimmed form starts with 'http', and it is the trimmed string |
| MapUtils.Get360LinkStable | backend/utils/mapUtils.js:19-24 | passing a returned link again returns it unchanged |
| MapUtils.Get360LinkTrimmed | backend/utils/mapUtils.js:21 | a returned link has no white space at either end |
| MapUtils.ParseMapViewSplits | backend/utils/mapUtils.js:11 | the map view is read back after the first `#`, split at the first `/` after the zoom |
| MapUtils.MapViewRoundTrip | backend/utils/mapUtils.js:11 | the view of the link made for two numbers opens at zoom 17 on exactly those two numbers, the second time each appears |
| VoiceText.TrimKeepsWording | backend/utils/voiceUtils.js:101 | trimming keeps the wording |
| VoiceText.CloseAfterFinds | backend/utils/voiceUtils.js:73-75 | the lazy `(.+?)` closes at the earliest position, at least one character in and with no line break before it, where the closing delimiter begins |
| VoiceText.UnwrapDelimited | backend/utils/voiceUtils.js:73-74 | `DxD` with a doubled delimiter D becomes `x` when x is a non-empty single line without the delimiter character |
| VoiceText.BoldUnwraps | backend/utils/voiceUtils.js:73 | `**x**` becomes `x` |
| VoiceText.UnderscoreUnwraps | backend/utils/voiceUtils.js:74 | `__x__` becomes `x` |
| VoiceText.LinkUnwraps | backend/utils/voiceUtils.js:75 | `[caption](url)` becomes `caption` |
| VoiceText.Unwrap | backend/utils/voiceUtils.js:73-74 | the result is never longer than the text, and a text without the delimiter character is left unchanged |
| VoiceText.Unlink | backend/utils/voiceUtils.js:75 | the result is never longer than the text, and a text without '[' is left unchanged by the link rewrite |
| VoiceText.UnwrapDropsOnlyDelimiters | backend/utils/voiceUtils.js:73-74 | for a doubled delimiter D, unwrapping removes only copies of D's character: every other character of the text is kept, in order |
| VoiceText.WordAtStart | backend/utils/voiceUtils.js:79-84 | a whole-word abbreviation followed by a non-word character is replaced and the rest is scanned as a fresh text |
| VoiceText.WordAlone | backend/utils/voiceUtils.js:79-84 | a text that is exactly the abbreviation becomes the replacement |
| VoiceText.ReplaceWordSplits | backend/utils/voiceUtils.js:79-84 | for every text, the whole-word replacement works word by word: a non-word character splits the text and each side is rewritten on its own, the right side as a fresh text |
| VoiceText.SpellKeepsOtherWord | backend/utils/voiceUtils.js:79-84 | every word of word characters other than the abbreviation is kept unchanged; with ReplaceWordSplits and WordAlone this fixes the result of the replacement on every text |
| VoiceText.ReplaceWithinWord | backend/utils/voiceUtils.js:79-84 | inside a word (no word boundary before it) nothing is replaced: `\b` never matches between two word characters |
| VoiceText.ReplaceWordWithoutFirstLetter | backend/utils/voiceUtils.js:79-84 | a text without the abbreviation's first letter is left unchanged |
| VoiceText.ReplaceWordKeepsWording | backend/utils/voiceUtils.js:79-84 | replacing every whole word by a text with the same wording keeps the wording of the text |
| VoiceText.LetterSpelled | backend/utils/voiceUtils.js:79-83 | spelling CSE, ECE, IT, EE and ME letter by letter keeps the wording, and creates no 'C' directly followed by 'E' |
| VoiceText.SpellingKeepsWording | backend/utils/voiceUtils.js:79-83 | one letter-by-letter spelling keeps the wording and creates no 'C' directly followed by 'E' |
| VoiceText.ReplaceWordKeepsNoCe | backend/utils/voiceUtils.js:79-83 | replacing a word by a text with no 'CE' pair and no final 'C' creates no 'CE' pair |
| VoiceText.ReplaceCeAbsent | backend/utils/voiceUtils.js:84 | a text with no 'C' directly followed by 'E' has no word `CE`, so the last spelling rule leaves it unchanged |
| VoiceText.SpaceAfterKeepsWording | backend/utils/voiceUtils.js:87-89 | replacing the white-space run after each '.', '?' or '!' by one space keeps the wording |
| VoiceText.SpaceAfter | backend/utils/voiceUtils.js:87-89 | the result is never longer and keeps the first character; after the rewrite every mark followed by white space is followed by exactly one space and then a non-space character or the end |
| VoiceText.SpaceAfterKeepsSpaced | backend/utils/voiceUtils.js:87-89 | spacing after one mark keeps the single spaces already made after another mark, so the three rewrites run in turn leave all three marks singly spaced |
| VoiceText.EnglishRewrite | backend/utils/voiceUtils.js:78-89 | after the English rewrites each '.', '?' and '!' followed by white space is followed by exactly one space |
| VoiceText.EnglishRewriteKeepsWording | backend/utils/voiceUtils.js:78-89 | for any English text with no 'C' directly followed by 'E', the rewrites change only spacing: the wording is the input's |
| VoiceText.EnglishSpellsCse | backend/utils/voiceUtils.js:79-84 | on the texts 'CSE' and 'CE': 'CSE' is spoken 'C S E' and 'CE' is spoken 'Civil Engineering' |
| VoiceText.DigitRun | backend/utils/voiceUtils.js:93 | the length of the leading run of digits, maximal |
| VoiceText.PadDigits | backend/utils/voiceUtils.js:93 | afterwards no digit is at either end of the text and each has a digit or a space on both sides, and the wording is the input's |
| VoiceText.PaddedRunKeepsWording | backend/utils/voiceUtils.js:93 | spaces put around a digit run keep the wording |
| VoiceText.PadDigitsWithoutDigits | backend/utils/voiceUtils.js:93 | a text without digits is unchanged |
| VoiceText.HindiKeepsDigitFreeText | backend/utils/voiceUtils.js:90-94 | for 'hi' no abbreviation is rewritten: a text without digits passes unchanged |
| VoiceText.HindiPadsDigits | backend/utils/voiceUtils.js:90-94 | for 'hi' every digit is padded, and the wording is the input's |
| VoiceText.LanguageRewrite | backend/utils/voiceUtils.js:78-94 | English text ends with every sentence mark singly spaced, and with its wording kept when it has no 'C' directly followed by 'E'; Hindi text has every digit padded and its wording kept; any other language is left unchanged |
| VoiceText.StripSymbols | backend/utils/voiceUtils.js:97 | the result holds none of the five symbols and only characters of the input, keeps the wording, and is the input itself when it held no symbol |
| VoiceText.NewlinesToPauses | backend/utils/voiceUtils.js:98 | the result holds no newline, only input characters plus '.' and ' ', keeps the wording, and is the input itself when it held no newline |
| VoiceText.CollapseSpaces | backend/utils/voiceUtils.js:99 | the result has no two white-space characters in a row, starts with white space exactly when the input does, holds only input characters or ' ', keeps the wording, and is the input itself when it had no run |
| VoiceText.Tidy | backend/utils/voiceUtils.js:97-99 | after the last three rewrites: no symbol, no newline, no white-space run, the same wording, and no change to a text that already had none of them |
| VoiceText.Preprocess | backend/utils/voiceUtils.js:69-102 | the spoken text has no symbol, no newline, no white-space run and no white space at either end; for a text without markdown characters (and, in English, without a 'CE' pair) the wording is the input's |
| VoiceText.UnmarkedKeepsWording | backend/utils/voiceUtils.js:69-102 | for a text without `*`, `_` or `[` (and, in English, without a 'C' directly followed by 'E'), the pipeline before trimming keeps the wording |
| VoiceText.TrimKeepsNoSpaceRun | backend/utils/voiceUtils.js:101 | trimming keeps the three properties the rewrites established |
| VoiceText.NormalizeLang | backend/utils/voiceUtils.js:119-124 | the language is 'hi' exactly when 'hi' is asked for; a name every JavaScript object inherits (such as `constructor`) is kept, as the table lookup finds it; every other language becomes 'en' |
| VoiceText.SpeechLang | backend/utils/voiceUtils.js:164 | the speech language is 'hi' or 'en', and 'hi' exactly for 'hi' |
| VoiceText.SpeechFollowsRequest | backend/utils/voiceUtils.js:119-164 | the speech is Hindi exactly when 'hi' was asked for; an inherited name gets no English rewrite |
| VoiceText.Underscored | backend/utils/voiceUtils.js:131 | letters and digits are kept, every other character becomes '_' |
| VoiceText.CacheKey | backend/utils/voiceUtils.js:130-133 | the key has min(length, 80) characters, all in `[a-z0-9_]`; each is the lower-cased letter or digit of the text at that place, and '_' exactly where the text has a non-alphanumeric character or '_' |
| VoiceText.CacheKeyIgnoresCaseAndPunctuation | backend/utils/voiceUtils.js:130-133 | texts that agree up to letter case and the choice of non-alphanumeric characters share a key |
| VoiceText.CacheKeyOfExtension | backend/utils/voiceUtils.js:130-133 | the key of a longer text extends the key of its beginning |
| VoiceText.FileName | backend/utils/voiceUtils.js:134 | the file name starts with `voice_<lang>_<key>` (so with `voice_`), then '_' and the decimal digits of the timestamp, which read back as the timestamp, and ends with `.mp3` |
| VoiceText.LongerTextFileMatches | backend/utils/voiceUtils.js:142 | the file made for a longer text is a cache candidate for a text whose key its key extends |
| VoiceText.ClassifyTtsError | backend/utils/voiceUtils.js:203-211 | the message is checked for network, then timeout, then access denied, and each case gets its own text; otherwise the original message follows 'Failed to generate voice: ' |
| VoiceText.EmptyTextIsGeneric | backend/utils/voiceUtils.js:115-117 | the empty-text failure reaches the caller as the generic message (also lines 209-210) |
| VoiceText.NotCreatedIsGeneric | backend/utils/voiceUtils.js:187-210 | the missing-file failure reaches the caller as the generic message |
| VoiceText.GenericWithoutLetters | backend/utils/voiceUtils.js:203-210 | a message lacking one letter of each flag word and the digit 4 is classified as generic |
| VoiceText.GenericWhenUnflagged | backend/utils/voiceUtils.js:203-210 | a message containing none of the five flag words is classified as generic |
| VoiceDir.Names | backend/utils/voiceUtils.js:22-28 | every entry's name is among the listing's names |
| VoiceDir.NamesExact | backend/utils/voiceUtils.js:22-28 | the names of a listing are exactly the names of its entries |
| VoiceDir.Without | backend/utils/voiceUtils.js:47-54 | an entry survives the removal exactly when its name is not among those removed |
| VoiceDir.VoiceEntries | backend/utils/voiceUtils.js:22-23 | an entry is kept exactly when its name starts with `voice_` and ends with `.mp3` |
| VoiceDir.WithoutCount | backend/utils/voiceUtils.js:47-54 | unlinking names that all occur in a directory removes exactly that many entries |
| VoiceDir.InsertByAge | backend/utils/voiceUtils.js:41 | inserting into a newest-first listing keeps it newest first and adds exactly the one entry |
| VoiceDir.SortNewest | backend/utils/voiceUtils.js:41 | the sort is newest first by `mtime || 0` and a permutation of the voice files |
| VoiceDir.SortNewestNames | backend/utils/voiceUtils.js:41 | sorting keeps the set of names and their distinctness |
| VoiceDir.CleanupKeepsOtherFiles | backend/utils/voiceUtils.js:22-54 | a file whose name is not a voice file name is never deleted by the cleanup |
| VoiceDir.CleanupNoopWhenFew | backend/utils/voiceUtils.js:44 | with at most MAX_VOICE_FILES voice files the cleanup deletes nothing |
| VoiceDir.DeletedSitsLate | backend/utils/voiceUtils.js:41-44 | a deleted file sits at sorted position MAX_VOICE_FILES or later |
| VoiceDir.KeptSitsEarly | backend/utils/voiceUtils.js:41-44 | a kept voice file sits before sorted position MAX_VOICE_FILES |
| VoiceDir.LateIsDeleted | backend/utils/voiceUtils.js:44-54 | every sorted voice file from position MAX_VOICE_FILES on is deleted |
| VoiceDir.CleanupKeepsNewest | backend/utils/voiceUtils.js:41-54 | only voice files are deleted, and each kept voice file is at least as new as each deleted one |
| VoiceDir.CleanupLeavesNewestCount | backend/utils/voiceUtils.js:44-54 | exactly min(n, MAX_VOICE_FILES) of n voice files remain (also line 7) |
| VoiceDir.ScanHitIsFresh | backend/utils/voiceUtils.js:143-150 | a file reused from the cache has the key's prefix, `.mp3`, and a time after the cutoff |
| VoiceDir.ScanExpiredAreStale | backend/utils/voiceUtils.js:151-154 | every file the cache loop deletes is a candidate no newer than the cutoff |
| VoiceDir.ScanMissDeletesAll | backend/utils/voiceUtils.js:141-160 | when nothing is reused, every candidate that can be stat'ed has been deleted |
| VoiceDir.ScanFindsFirstFresh | backend/utils/voiceUtils.js:141-150 | the first fresh candidate in listing order is the one reused |
| VoiceDir.ExpiredAndHitDiffer | backend/utils/voiceUtils.js:141-160 | the file reused is never one of those deleted as expired |
| VoiceDir.ScanCache | backend/utils/voiceUtils.js:141-159 | the file the cache loop reuses is one of the listing's files |
| VoiceDir.VoiceStore.constructor | backend/utils/voiceUtils.js:6 | the directory starts with the given listing of distinct names |
| VoiceDir.VoiceStore.CleanupOldFiles | backend/utils/voiceUtils.js:19-63 | the directory becomes the listing without the sorted voice files past MAX_VOICE_FILES, and names stay distinct |
| VoiceDir.VoiceStore.DeleteAll | backend/utils/voiceUtils.js:47-54 | unlinking each file in turn leaves the listing without exactly those names |
| VoiceDir.VoiceStore.LookupCache | backend/utils/voiceUtils.js:138-160 | returns the first fresh candidate in listing order and deletes exactly the expired candidates before it |
| VoiceDir.VoiceStore.TextToSpeech | backend/utils/voiceUtils.js:110-213 | empty text fails and changes nothing; a cache hit is returned and cleaned up after; otherwise a saved file is added under `voice_<lang>_<key>_<now>.mp3` and cleaned up, and a failed or missing save keeps the directory as the cache loop left it with the classified message |
| VoiceDir.CleanupBoundsVoiceFiles | backend/utils/voiceUtils.js:44 | after the cleanup at most MAX_VOICE_FILES voice files remain (also line 7) |
| VoiceDir.CacheHitSurvivesCleanup | backend/utils/voiceUtils.js:147-150 | with at most MAX_VOICE_FILES voice files, the file a cache hit returns is still there after the cleanup |
| VoiceDir.OldestSortsLast | backend/utils/voiceUtils.js:41 | a file older than every other file sorts last |
| VoiceDir.CacheHitDeletedBehindFive | backend/utils/voiceUtils.js:141-150 | with more than MAX_VOICE_FILES voice files the reuse is not safe: a fresh hit listed before five newer voice files is returned with nothing expired, and the cleanup then deletes it |
| BackendErrorHandler.StatusFor | backend/middleware/errorHandler.js:4 | the reply is never sent with status 200, and any other status already set is kept |
| BackendErrorHandler.HandleError | backend/middleware/errorHandler.js:1-85 | the handler itself fails exactly on a validation error without entries; every other reply carries the derived status |
| BackendErrorHandler.RouteCaseInsensitive | backend/middleware/errorHandler.js:5 | the reply does not depend on the letter case of the URL |
| BackendErrorHandler.ByKind | backend/middleware/errorHandler.js:9-34 | a cast, validation, duplicate-key or token error gets the same reply on every route |
| BackendErrorHandler.AiRouteReplies | backend/middleware/errorHandler.js:36-47 | on an `/ai` route any other error gets one of the three AI wordings, never its own message |
| BackendErrorHandler.ValidationFirstMessage | backend/middleware/errorHandler.js:14-19 | a validation error reports missing data when its first message mentions `required`, and otherwise echoes that first message |
| BackendErrorHandler.OwnMessageEchoed | backend/middleware/errorHandler.js:72-82 | off the special routes, the error's own message is echoed exactly when it is non-empty and mentions no database, network or stack; a technical one gets the database or network wording |
| BackendErrorHandler.DuplicateEmailHidden | backend/middleware/errorHandler.js:21-26 | a duplicate e-mail gets the fixed "already exists" wording without the address |
| BackendErrorHandler.DuplicateNamesField | backend/middleware/errorHandler.js:20-27 | a duplicate key on a field other than e-mail is reported as `A <field> "<value>" already exists.`, naming the value |
| BackendErrorHandler.RouteDefaultStops | backend/middleware/errorHandler.js:48-71 | on a departments, StudyHub or auth route, an error of no special kind whose message has none of the route words keeps the default reply |
| BackendErrorHandler.RouteMessage | backend/middleware/errorHandler.js:36-71 | a route wording exists exactly on the `/ai`, `/departments`, `/studyhub` and `/auth` routes, the first of them in that order deciding; each route picks only among its own replies, and only the `/ai` route never falls back to the default |
| BackendErrorHandler.CastErrorReply | backend/middleware/errorHandler.js:10-12 | a cast error on an ObjectId is answered with the invalid-id wording on every route |
| BackendErrorHandler.JsonWebTokenReply | backend/middleware/errorHandler.js:29-31 | a token error that is not a duplicate key is answered with the invalid-token wording |
| BackendErrorHandler.TokenExpiredReply | backend/middleware/errorHandler.js:32-34 | an expired-token error that is not a duplicate key is answered with the expired-session wording |
| MainErrorHandler.ErrorResponse | campus-connect-backend-main/utils/errorHandler.js:7-12 | the body carries `success: false`, the given status and the given message |
| MainErrorHandler.NotFound | campus-connect-backend-main/utils/errorHandler.js:17-19 | status 404, and the message begins with "Route " and ends with " not found" |
| MainErrorHandler.NotFoundNamesRoute | campus-connect-backend-main/utils/errorHandler.js:18 | the URL can be read back from the 404 message |
| MainErrorHandler.GeneralErrorHandler | campus-connect-backend-main/utils/errorHandler.js:24-41 | always `success: false` with a non-zero status, and 400 for validation and duplicate-key errors |
| MainErrorHandler.ValidationListsEveryMessage | campus-connect-backend-main/utils/errorHandler.js:28-31 | every field message of a validation error appears in the reply |
| MainErrorHandler.DuplicateNamesField | campus-connect-backend-main/utils/errorHandler.js:34-37 | a duplicate key reply starts with the clashing field and ends with " already exists" |
| MainErrorHandler.OtherErrorsKeepStatus | campus-connect-backend-main/utils/errorHandler.js:40 | any other error keeps a non-zero status of its own or falls back to 500, and keeps its message or falls back to "Internal Server Error" |
| Users.FindByEmail | campus-connect-backend-main/controllers/authController.js:29 | the position found holds the key, and nothing is found exactly when no account has it (also line 73) |
| Users.FindAppended | campus-connect-backend-main/controllers/authController.js:29-43 | an account stored under a free address is the one found under it |
| Users.FindById | campus-connect-backend-main/utils/authMiddleware.js:21 | the position found holds the id, and nothing is found exactly when no account has it |
| Users.AppendAccount | campus-connect-backend-main/controllers/authController.js:28-43 | storing an account under a free address and the next id keeps ids increasing and addresses distinct |
| Users.UserStore.constructor | campus-connect-backend-main/controllers/authController.js:1 | the collection starts empty and valid |
| Users.UserStore.Insert | campus-connect-backend-main/controllers/authController.js:38-43 | the account is stored last under the next id and the collection stays valid |
| AuthController.NormalEmail | campus-connect-backend-main/controllers/authController.js:29 | the key is lower-case with no white space at either end, and an address without white space is only lower-cased (also lines 40, 73) |
| AuthController.RegisterRefusal | campus-connect-backend-main/controllers/authController.js:15-32 | a registration is refused exactly when a field is missing, the password is short, the address fails the pattern or its normal form is taken |
| AuthController.RegistrationOrder | campus-connect-backend-main/controllers/authController.js:15-32 | each refusal message is given exactly when the checks before it pass and its own fails |
| AuthController.AcceptedEmailNormal | campus-connect-backend-main/controllers/authController.js:23-29 | an address the pattern accepts is stored lower-cased, with its length kept and not empty |
| AuthController.RegisterKeepsValid | campus-connect-backend-main/controllers/authController.js:38-43 | an accepted registration keeps the collection valid and stores a trimmed name, the lower-cased address and the role 'user' |
| AuthController.RegisterUser | campus-connect-backend-main/controllers/authController.js:10-61 | a refusal changes nothing; otherwise the new account is stored last and answered with 201, a token for its id and its profile |
| AuthController.RegisterRefusesDuplicate | campus-connect-backend-main/controllers/authController.js:29-32 | once an address is registered, any spelling with the same normal form is refused, with the taken-address message when the other checks pass |
| AuthController.LoginUser | campus-connect-backend-main/controllers/authController.js:64-100 | missing fields, an unknown normalised address and a wrong password are refused in that order, each exactly in its case; a welcome carries 200 and the matching account's token and profile |
| AuthController.LoginReaches | campus-connect-backend-main/controllers/authController.js:73-96 | login with a matching password reaches the account found under the normalised address |
| AuthController.RegisterThenLogin | campus-connect-backend-main/controllers/authController.js:10-100 | after registering, login with the same password and any spelling of the address with the same normal form reaches the new account |
| AuthMiddleware.Request.constructor | campus-connect-backend-main/utils/authMiddleware.js:6 | a request starts with its header and no user |
| AuthMiddleware.BearerToken | campus-connect-backend-main/utils/authMiddleware.js:9-11 | a token taken is a non-empty text without spaces from a header starting with 'Bearer' |
| AuthMiddleware.BearerTokenOf | campus-connect-backend-main/utils/authMiddleware.js:9-11 | `Bearer <token>`, with or without more parts after it, gives the token back |
| AuthMiddleware.BearerTokenMissing | campus-connect-backend-main/utils/authMiddleware.js:9-13 | the bare word and a header with two spaces before the token give no token |
| AuthMiddleware.Authenticate | campus-connect-backend-main/utils/authMiddleware.js:9-30 | each of the three refusals is given exactly in its case; acceptance loads the account whose id the token carries |
| AuthMiddleware.Protect | campus-connect-backend-main/utils/authMiddleware.js:6-36 | a refusal answers 401 and leaves `req.user` alone; otherwise `req.user` is the account's profile and the request goes on |
| AuthMiddleware.IssuedTokenAccepted | campus-connect-backend-main/utils/authMiddleware.js:9-30 | a token that `verify` maps to a stored account's id, sent as `Bearer <token>`, loads that account |
| AuthMiddleware.AdminGate | campus-connect-backend-main/utils/authMiddleware.js:39-53 | the request goes on exactly for a user whose role is 'admin'; 401 without a user, 403 otherwise |
| AdminRoutes.GateAdmitsOnlyAdmins | backend/routes/adminRoutes.js:9 | a moderation route is reached only with a token that names a stored admin account (also lines 28, 52, 76) |
| AdminRoutes.RegisteredAccountsAreNotAdmins | backend/routes/adminRoutes.js:9 | an account made by registration is refused with 403 |
| AdminRoutes.Authorize | backend/routes/adminRoutes.js:9 | the outcome is `protect` then `admin`, and `req.user` is set exactly when `protect` accepts (also lines 28, 52, 76) |
| AdminRoutes.SelectEvery | backend/routes/adminRoutes.js:11 | the query without conditions selects every record in order |
| AdminRoutes.ListAll | backend/routes/adminRoutes.js:9-23 | at most 100 records of any status, all stored, newest first, and the answer counts them |
| AdminRoutes.ListAllNewest | backend/routes/adminRoutes.js:11-14 | a record the list leaves out is older than every one it shows, and the list is full |
| AdminRoutes.ModerationKeepsRecord | backend/routes/adminRoutes.js:32-56 | approving sets the status and the verified flag only, rejecting the status only, and both keep a record valid |
| AdminRoutes.ModerationDecidesVisibility | backend/routes/adminRoutes.js:32-56 | an approved record is selected by the public listings exactly when its other fields match; a rejected one never is |
| AdminRoutes.Approve | backend/routes/adminRoutes.js:28-47 | an unknown id changes nothing and fails with "Resource not found"; otherwise that record alone is approved and answered |
| AdminRoutes.Reject | backend/routes/adminRoutes.js:52-71 | an unknown id changes nothing and fails with "Resource not found"; otherwise that record alone is rejected and answered |
| AdminRoutes.Delete | backend/routes/adminRoutes.js:76-94 | an unknown id changes nothing and fails with "Resource not found"; otherwise that record is removed and its title answered |
| AdminRoutes.DeleteRemovesExactly | backend/routes/adminRoutes.js:78 | what is left is every other record, and the id is gone |
| ResourceModel.CastTags | campus-connect-backend-main/models/Resource.js:27-31 | every tag is stored trimmed and lower-cased, and none is added or dropped |
| ResourceModel.DeclaredSchemaErrors | campus-connect-backend-main/models/Resource.js:3-105 | no path is reported exactly when the record meets the schema as declared, with semester and subject required and the rating capped at 5 |
| ResourceModel.SchemaErrors | campus-connect-backend-main/models/Resource.js:3-105 | no path is reported exactly when the record meets the schema with semester optional, subject optional and allowed empty (as the validator's `.allow('')` lets it through, where `minlength: 2` alone would refuse it), and the rating bounded by 5 per rating given |
| ResourceModel.ValidResourceBounds | campus-connect-backend-main/models/Resource.js:5-101 | a stored record has a title of 3 to 200 characters, a listed file type and category, a semester from 1 to 8 when set, one of the three states, non-negative counters and a rating of at most 5 per rating given |
| ResourceModel.DeclaredImpliesValid | campus-connect-backend-main/models/Resource.js:46-57 | every record the declared schema accepts is accepted by the corrected one, unless its rating exceeds 5 per rating given (also lines 87-96) |
| ResourceModel.WithDefaults | campus-connect-backend-main/models/Resource.js:65-101 | an upload gets status 'pending', unverified and zero counters, and nothing else changes |
| ResourceModel.Viewed | campus-connect-backend-main/models/Resource.js:127-130 | views go up by one and nothing else changes |
| ResourceModel.Downloaded | campus-connect-backend-main/models/Resource.js:133-136 | downloads go up by one and nothing else changes |
| ResourceModel.AcceptRating | campus-connect-backend-main/models/Resource.js:140-142 | a rating is accepted exactly when it is an integer from 1 to 5; otherwise the fixed message |
| ResourceModel.Rated | campus-connect-backend-main/models/Resource.js:143-144 | the value is added to the sum, the count goes up by one and nothing else changes |
| ResourceModel.CountersStayValid | campus-connect-backend-main/models/Resource.js:127-136 | counting a view or a download keeps a record savable |
| ResourceModel.DeclaredRatingBound | campus-connect-backend-main/models/Resource.js:87-96 | under the declared schema the save after a rating succeeds exactly while the running sum stays at most 5 (also lines 143-145) |
| ResourceModel.DeclaredRefusesSecondRating | campus-connect-backend-main/models/Resource.js:87-96 | a second rating of 3 after a first of 3 fails the declared schema on `rating` alone (also lines 143-145) |
| ResourceModel.RatedStaysValid | campus-connect-backend-main/models/Resource.js:139-146 | with the sum bound, every accepted rating keeps the record savable |
| ResourceModel.RateAllAverage | campus-connect-backend-main/models/Resource.js:122-146 | any run of ratings from 1 to 5 keeps the average between 1 and 5 and counts each one |
| ResourceModel.Find | backend/routes/adminRoutes.js:30 | the position found holds the id, and nothing is found only when no record has it (also lines 54, 78) |
| ResourceModel.RemoveAt | backend/routes/adminRoutes.js:78 | the record at the position is removed and the others keep their order |
| ResourceModel.SchemaIgnoresId | campus-connect-backend-main/models/Resource.js:3-105 | the id plays no part in the schema |
| ResourceModel.AppendKeepsValid | campus-connect-backend-main/models/Resource.js:103-105 | storing a savable record under the next id keeps ids increasing and every record savable |
| ResourceModel.Select | campus-connect-backend-main/controllers/studyHubController.js:104-127 | exactly the records the filter selects, in storage order (also lines 7, 36-39) |
| ResourceModel.SelectIncreasing | campus-connect-backend-main/controllers/studyHubController.js:8 | selecting keeps the id order (also lines 40, 130) |
| ResourceModel.NewestFirst | campus-connect-backend-main/controllers/studyHubController.js:8 | the records in reverse insertion order, so ids decrease (also lines 40, 130) |
| ResourceModel.Latest | campus-connect-backend-main/controllers/studyHubController.js:7-9 | at most n selected records, newest first (also lines 36-41, 127-130) |
| ResourceModel.LatestAreNewest | campus-connect-backend-main/controllers/studyHubController.js:7-9 | a selected record left out is older than every one returned, and the limit is reached (also lines 36-41) |
| ResourceModel.TakeLeavesOlder | campus-connect-backend-main/controllers/studyHubController.js:8-9 | the newest n of an increasing sequence leave out only older records, and only when there are n |
| ResourceModel.ResourceStore.constructor | campus-connect-backend-main/models/Resource.js:148 | the collection starts empty and valid |
| ResourceModel.ResourceStore.IncrementViews | campus-connect-backend-main/models/Resource.js:127-130 | only that record changes, by one more view, and the collection stays valid |
| ResourceModel.ResourceStore.IncrementDownloads | campus-connect-backend-main/models/Resource.js:133-136 | only that record changes, by one more download, and the collection stays valid |
| ResourceModel.ResourceStore.AddRating | campus-connect-backend-main/models/Resource.js:139-146 | a refused value changes nothing; an accepted one updates that record alone and keeps the collection valid |
| ResourceModel.ResourceStore.Insert | campus-connect-backend-main/models/Resource.js:103-105 | the record is stored last under the next id and the collection stays valid |
| ResourceModel.ResourceStore.Replace | backend/routes/adminRoutes.js:30-58 | the record at the position is overwritten and the collection stays valid |
| ResourceModel.ResourceStore.Delete | backend/routes/adminRoutes.js:78 | the record at the position is removed and the collection stays valid |
| DepartmentModel.SchemaErrors | campus-connect-backend-main/models/Department.js:3-138 | no path is reported exactly when every constraint of the schema holds |
| DepartmentModel.ValidDepartmentBounds | campus-connect-backend-main/models/Department.js:5-48 | a stored department has a name of at least 3 characters, a code of 2 to 10 upper-case letters and digits, coordinates in range, a floor from 0 to 10 when set, weekday names as closed days and a non-negative search count (also lines 105-109, 126-130) |
| DepartmentModel.Bumped | campus-connect-backend-main/models/Department.js:148-151 | the search count goes up by one and nothing else changes |
| DepartmentModel.BumpedStaysValid | campus-connect-backend-main/models/Department.js:126-151 | raising the search count keeps a record savable |
| DepartmentModel.Find | campus-connect-backend-main/controllers/departmentController.js:25 | the position found holds the id, and nothing is found only when no record has it (also lines 96, 118) |
| DepartmentModel.RemoveAt | campus-connect-backend-main/controllers/departmentController.js:118 | the record at the position is removed and the others keep their order |
| DepartmentModel.BumpCounts | campus-connect-backend-main/controllers/departmentController.js:158 | each record's count is raised by the number of times its id is bumped, and nothing else changes |
| DepartmentModel.BumpStep | campus-connect-backend-main/controllers/departmentController.js:158 | bumping one more record adds its id once to the bumps made so far |
| DepartmentModel.DepartmentStore.constructor | campus-connect-backend-main/models/Department.js:153 | the collection starts empty and valid |
| DepartmentModel.DepartmentStore.IncrementSearch | campus-connect-backend-main/models/Department.js:148-151 | only that record changes, by one more search, and the collection stays valid |
| DepartmentModel.DepartmentStore.IncrementSearchAll | campus-connect-backend-main/controllers/departmentController.js:158 | every record's count goes up by the number of times its id occurs among the results, and the collection stays valid |
| DepartmentModel.DepartmentStore.Insert | campus-connect-backend-main/models/Department.js:136-138 | the record is stored last under the next id, and the codes stay distinct and every record valid (also line 16) |
| DepartmentModel.DepartmentStore.Replace | campus-connect-backend-main/controllers/departmentController.js:96-100 | that record is overwritten and the collection stays valid |
| DepartmentModel.DepartmentStore.Delete | campus-connect-backend-main/controllers/departmentController.js:118 | that record is removed and the collection stays valid |
| DepartmentValidator.Validate | campus-connect-backend-main/validators/departmentValidator.js:4-122 | a body is accepted exactly when every key meets its rule (and, for update, some known key is given), with the converted value; otherwise the first message |
| DepartmentValidator.CodeErrorsNone | campus-connect-backend-main/validators/departmentValidator.js:15-25 | the code draws no message exactly when, upper-cased, it has 2 to 10 letters and digits (or is absent on update) (also lines 76-81) |
| DepartmentValidator.AcceptableIffNoErrors | campus-connect-backend-main/validators/departmentValidator.js:4-122 | no rule draws a message exactly when every rule accepts |
| DepartmentValidator.CreateAccepted | campus-connect-backend-main/validators/departmentValidator.js:4-46 | an accepted create carries a name of 3 to 100 characters, an upper-case code of 2 to 10 letters and digits, and coordinates in range |
| DepartmentValidator.CreateImpliesUpdate | campus-connect-backend-main/validators/departmentValidator.js:4-122 | a body accepted for create is accepted for update |
| DepartmentValidator.EmptyUpdateRefused | campus-connect-backend-main/validators/departmentValidator.js:118-122 | an update naming no known key is refused with the `.min(1)` message |
| DepartmentValidator.MissingNameFirst | campus-connect-backend-main/validators/departmentValidator.js:5-13 | a create without a name is refused with the name-required message, before anything else |
| DepartmentValidator.UnknownKeysStripped | campus-connect-backend-main/validators/departmentValidator.js:67 | adding a key the schemas do not name changes neither the verdict nor the value (also line 119) |
| DepartmentValidator.KnownFieldsKept | campus-connect-backend-main/validators/departmentValidator.js:67 | adding an unknown key leaves every known key's value alone (also line 119) |
| DepartmentValidator.KnownKeyKept | campus-connect-backend-main/validators/departmentValidator.js:118-119 | adding an unknown key does not satisfy `.min(1)` |
| DepartmentValidator.SameKnownFields | campus-connect-backend-main/validators/departmentValidator.js:4-122 | bodies that agree on the known keys get the same messages and the same value |
| ResourceValidator.TagTexts | campus-connect-backend-main/validators/resourceValidator.js:76-85 | every tag is trimmed and lower-cased, none added or dropped |
| ResourceValidator.Validate | campus-connect-backend-main/validators/resourceValidator.js:6-95 | a body is accepted exactly when every key meets its rule, with the converted value; otherwise all messages joined by ", " |
| ResourceValidator.ItemsErrorsNone | campus-connect-backend-main/validators/resourceValidator.js:77-85 | the tag items draw no message exactly when each is a text of 1 to 50 characters once trimmed |
| ResourceValidator.AcceptableIffNoErrors | campus-connect-backend-main/validators/resourceValidator.js:6-95 | no rule draws a message exactly when every rule accepts |
| ResourceValidator.TagsErrorsNone | campus-connect-backend-main/validators/resourceValidator.js:76-90 | the tags draw no message exactly when they are at most 10 accepted items |
| ResourceValidator.LeadingErrorsNone | campus-connect-backend-main/validators/resourceValidator.js:7-39 | title, description, department and link draw no message exactly when they are accepted |
| ResourceValidator.ChoiceErrorsNone | campus-connect-backend-main/validators/resourceValidator.js:41-74 | file type, category, semester and subject draw no message exactly when they are accepted |
| ResourceValidator.AcceptedBounds | campus-connect-backend-main/validators/resourceValidator.js:6-91 | an accepted upload has a title of 3 to 200 characters, a department of at least 2, an http(s) link, listed lower-case choices, a semester from 1 to 8, bounded texts and at most 10 converted tags of 1 to 50 characters |
| ResourceValidator.AcceptedChoices | campus-connect-backend-main/validators/resourceValidator.js:41-55 | an accepted file type or category is listed and already lower case |
| ResourceValidator.AcceptedTags | campus-connect-backend-main/validators/resourceValidator.js:76-90 | accepted tags are at most 10, each converted and 1 to 50 characters |
| ResourceValidator.EveryMessageReported | campus-connect-backend-main/validators/resourceValidator.js:6-95 | every failing rule's message appears in the error text |
| ResourceValidator.FractionBelowRange | campus-connect-backend-main/validators/resourceValidator.js:57-66 | semester 0.5 draws the whole-number message and then the range message |
| ResourceValidator.TooManyTags | campus-connect-backend-main/validators/resourceValidator.js:86-90 | more than 10 tags are refused with the maximum message even when every tag is fine |
| ResourceValidator.UnknownKeysStripped | campus-connect-backend-main/validators/resourceValidator.js:92 | adding a key the schema does not name changes neither the verdict nor the value |
| DepartmentController.InsertByName | campus-connect-backend-main/controllers/departmentController.js:7 | inserting into a list sorted by name keeps it sorted and adds exactly the one record |
| DepartmentController.SortByName | campus-connect-backend-main/controllers/departmentController.js:149 | the records sorted by name, a permutation of the input (also line 7) |
| DepartmentController.SortedPairwise | campus-connect-backend-main/controllers/departmentController.js:149 | in a list sorted by name every earlier record sorts no later than every later one |
| DepartmentController.SmallestPrefix | campus-connect-backend-main/controllers/departmentController.js:148-149 | the first m records of a sorted list sort no later than any record after them |
| DepartmentController.FirstByName | campus-connect-backend-main/controllers/departmentController.js:148-149 | min(n, size) records, sorted by name, drawn from the input, and no record left out sorts before one kept: the n smallest by name (also line 7) |
| DepartmentController.FirstByNameUnique | campus-connect-backend-main/controllers/departmentController.js:148-149 | sorting and limiting never repeats a record and adds no id |
| DepartmentController.GetDepartments | campus-connect-backend-main/controllers/departmentController.js:5-20 | status 200 with min(50, size) records sorted by name, the smallest by name, drawn from the collection, and no data exactly when there are no departments |
| DepartmentController.Matching | campus-connect-backend-main/controllers/departmentController.js:141-146 | exactly the records whose name or code contains the term ignoring case, each as often as in the input |
| DepartmentController.MatchingUnique | campus-connect-backend-main/controllers/departmentController.js:141-146 | the matches never repeat a record |
| DepartmentController.SearchResults | campus-connect-backend-main/controllers/departmentController.js:141-149 | min(20, number of matches) records, sorted by name, each matching the term, and no matching record left out sorts before one returned |
| DepartmentController.BumpOnce | campus-connect-backend-main/controllers/departmentController.js:158 | with distinct ids, each record returned gains exactly one search and every other record none |
| DepartmentController.UniqueCount | campus-connect-backend-main/controllers/departmentController.js:158 | with distinct ids, each id is bumped once if returned and otherwise never |
| DepartmentController.GetDepartmentById | campus-connect-backend-main/controllers/departmentController.js:23-40 | an unknown id fails with "Department not found" and changes nothing; otherwise that record alone gains one search and is answered |
| DepartmentController.FieldsRefusal | campus-connect-backend-main/controllers/departmentController.js:51-65 | a body passing the code and name checks and the model's validators gives a valid record with a free code |
| DepartmentController.AddDepartment | campus-connect-backend-main/controllers/departmentController.js:43-74 | a refusal changes nothing and is answered as in the handler's order of checks; otherwise the cast record is stored last under the next id and answered with 201 |
| DepartmentController.AddReady | campus-connect-backend-main/controllers/departmentController.js:46-65 | a body the handler does not refuse gives a valid record with a name and a code no stored record holds |
| DepartmentController.AddRefusalNone | campus-connect-backend-main/controllers/departmentController.js:46-65 | a body the handler does not refuse passes the schema, keeps a code and gives a valid record with a free code |
| DepartmentController.FromFieldsCode | campus-connect-backend-main/controllers/departmentController.js:65 | the record built from accepted fields keeps the accepted code and has a name |
| DepartmentController.CodeCastIsIdentity | campus-connect-backend-main/controllers/departmentController.js:65 | a code the validator accepted is stored unchanged by the upper-case and trim casts |
| DepartmentController.UpdateFieldsRefusal | campus-connect-backend-main/controllers/departmentController.js:85-104 | an update passing the code check, the validators of the paths set and the id lookup reaches a stored record |
| DepartmentController.UpdatedStaysValid | campus-connect-backend-main/controllers/departmentController.js:96-100 | setting only paths that pass their validators keeps a valid record valid |
| DepartmentController.UpdateReady | campus-connect-backend-main/controllers/departmentController.js:80-104 | an update the handler does not refuse gives a valid record with the same id and a code no other record holds |
| DepartmentController.UpdateDepartment | campus-connect-backend-main/controllers/departmentController.js:77-113 | a refusal changes nothing; otherwise the record with the id alone is updated with the keys given and answered |
| DepartmentController.DeleteDepartment | campus-connect-backend-main/controllers/departmentController.js:116-130 | an unknown id fails with "Department not found" and changes nothing; otherwise that record is removed and the reply carries its name and 'Department removed successfully' |
| DepartmentController.SearchDepartments | campus-connect-backend-main/controllers/departmentController.js:133-167 | a missing or shorter than 2 character trimmed term fails and changes nothing; otherwise the results are answered and each record's count rises by the times it is returned |
| DepartmentController.SearchBumpsEachResultOnce | campus-connect-backend-main/controllers/departmentController.js:141-158 | a search bumps every department it returns by exactly one and leaves the others alone |
| DepartmentController.BumpLoaded | campus-connect-backend-main/controllers/departmentController.js:147-158 | saving each loaded result after `incrementSearch` gives one record per stored record |
| DepartmentController.BumpsLostWithoutCount | campus-connect-backend-main/controllers/departmentController.js:147-158 | when `searchCount` is not among the loaded fields, every save fails and no stored count changes |
| DepartmentController.SearchBumpsNothingAsWritten | campus-connect-backend-main/controllers/departmentController.js:147-158 | as written, with the nine selected fields, a search leaves every stored record unchanged |
| DepartmentController.SearchBumpsWithCountSelected | campus-connect-backend-main/controllers/departmentController.js:147-158 | with `searchCount` also selected, the saves bump each returned record by exactly the times it is returned |
| DepartmentController.AddRefusesTakenCode | campus-connect-backend-main/controllers/departmentController.js:52-55 | a code already stored is refused whatever the name, before the name check |
| DepartmentController.UpdateKeepsOwnCode | campus-connect-backend-main/controllers/departmentController.js:86-94 | an update that keeps a department's own code is not refused for it |
| StudyHubController.GetAllResources | campus-connect-backend-main/controllers/studyHubController.js:5-24 | status 200 with min(50, number of approved) approved stored resources, newest first; none exactly when no resource is approved, answered with the empty-hub text |
| StudyHubController.AllReturnsNewest | campus-connect-backend-main/controllers/studyHubController.js:7-9 | an approved resource left out of the listing means 50 were shown, each newer than it: the listing is the 50 newest approved |
| StudyHubController.GetResourcesByDepartment | campus-connect-backend-main/controllers/studyHubController.js:27-56 | a blank name fails with "Department name is required", exactly; otherwise min(20, number of matches) approved resources whose department equals the trimmed name ignoring case, newest first |
| StudyHubController.DepartmentReturnsNewest | campus-connect-backend-main/controllers/studyHubController.js:36-41 | an approved resource of the department left out of the reply means 20 were shown, each newer than it: the reply is the department's 20 newest |
| StudyHubController.DepartmentPicks | campus-connect-backend-main/controllers/studyHubController.js:36-41 | min(20, number of matches) approved stored resources of the department, newest first |
| StudyHubController.UploadRecord | campus-connect-backend-main/controllers/studyHubController.js:76-82 | the uploader is set, and a missing file type or category becomes 'other', a missing semester none and missing tags empty |
| StudyHubController.Created | campus-connect-backend-main/controllers/studyHubController.js:76-84 | the stored document holds the trimmed texts, the lower-cased choices with 'other' as default, and the uploader |
| StudyHubController.CreatedIsPending | campus-connect-backend-main/controllers/studyHubController.js:58-84 | a new resource is pending, unverified, unrated and unviewed |
| StudyHubController.UploadRefusal | campus-connect-backend-main/controllers/studyHubController.js:62-84 | an upload goes through exactly when the body is valid, a user is logged in and the document meets the schema |
| StudyHubController.AddResource | campus-connect-backend-main/controllers/studyHubController.js:59-93 | a refusal changes nothing and is answered in the handler's order; otherwise the document is stored last under the next id and answered with 201 |
| StudyHubController.InvalidBodyBeforeLogin | campus-connect-backend-main/controllers/studyHubController.js:62-73 | an invalid body is reported before a missing login |
| StudyHubController.CreatedValid | campus-connect-backend-main/controllers/studyHubController.js:76-84 | accepted fields whose trimmed title keeps three characters, whose trimmed department is not empty and whose trimmed subject, if named, is empty or keeps two characters, give a document the schema accepts |
| StudyHubController.CreatedLeadingClean | campus-connect-backend-main/controllers/studyHubController.js:76-84 | such a document passes the title, description, department, link, file type and category rules |
| StudyHubController.CreatedMiddleClean | campus-connect-backend-main/controllers/studyHubController.js:76-84 | a new document passes the uploader, status and counter rules |
| StudyHubController.CreatedCounters | campus-connect-backend-main/controllers/studyHubController.js:81-84 | a new document passes the semester and rating rules, and the subject rule whenever the trimmed subject is absent, empty or at least two characters |
| StudyHubController.CreatedTexts | campus-connect-backend-main/controllers/studyHubController.js:84 | the trimmed title, description, department and link of an accepted body meet the schema |
| StudyHubController.CreatedLists | campus-connect-backend-main/controllers/studyHubController.js:79-80 | the stored file type and category are listed values |
| StudyHubController.UploadSucceeds | campus-connect-backend-main/controllers/studyHubController.js:59-93 | an accepted body from a logged-in user is stored whenever trimming leaves the title three characters, the department non-empty and a named subject empty or at least two characters |
| StudyHubController.DeclaredSchemaRefusesUpload | campus-connect-backend-main/controllers/studyHubController.js:81-84 | under the schema as declared, every upload that names no semester is refused on `semester` |
| StudyHubController.SearchFilterMeaning | campus-connect-backend-main/controllers/studyHubController.js:104-125 | the filter selects exactly the approved resources whose department contains the department text and whose title, a tag or subject contains the keyword |
| StudyHubController.SearchResults | campus-connect-backend-main/controllers/studyHubController.js:127-130 | at most 20 matching stored resources, newest first |
| StudyHubController.SearchResources | campus-connect-backend-main/controllers/studyHubController.js:96-148 | a refusal is given exactly when a check fails, with its message; otherwise status 200 with at most 20 matching resources, newest first |
| StudyHubController.SearchReturnsNewest | campus-connect-backend-main/controllers/studyHubController.js:127-130 | a match left out is older than all 20 returned |
| StudyHubController.DepartmentCheckedBeforeKeyword | campus-connect-backend-main/controllers/studyHubController.js:106-118 | a short department is reported even when the keyword is short too |
| AiControllerMain.FirstMatch | campus-connect-backend-main/controllers/aiController.js:112-119 | the pattern found is the first in list order that matches the query; none is found exactly when no pattern matches |
| AiControllerMain.NavigationTargets | campus-connect-backend-main/controllers/aiController.js:111-119 | the loop over the navigation patterns leaves `from` and `to` as the trimmed groups of the first matching pattern, and both null when none matches |
| AiControllerMain.FindDepartment | campus-connect-backend-main/controllers/aiController.js:124-129 | the department found is the first stored one whose code is the upper-cased text or whose name matches it, every earlier one failing to match; none exactly when no department matches |
| AiControllerMain.LocationName | campus-connect-backend-main/controllers/aiController.js:172-184 | a whole-word department code is taken first and is one of the listed codes; else the trimmed capture of the 'where is' pattern; else the query with the keywords removed, trimmed, never longer than the query |
| AiControllerMain.Numbered | campus-connect-backend-main/controllers/aiController.js:20-23 | one line per route step, in order; line i starts with the prefix, then the number i + 1 and the separator, and ends with step i |
| AiControllerMain.Navigation | campus-connect-backend-main/controllers/aiController.js:18-25 | the spoken route is never empty |
| AiControllerMain.NavigationFallback | campus-connect-backend-main/controllers/aiController.js:27-29 | the spoken distance is never empty |
| AiControllerMain.DepartmentLocation | campus-connect-backend-main/controllers/aiController.js:31-49 | the spoken location is never empty |
| AiControllerMain.StudyMaterials | campus-connect-backend-main/controllers/aiController.js:51-53 | the spoken count of materials is never empty |
| AiControllerMain.NoMaterials | campus-connect-backend-main/controllers/aiController.js:55-57 | the spoken 'no materials' message is never empty |
| AiControllerMain.NotFound | campus-connect-backend-main/controllers/aiController.js:59-61 | the spoken 'not found' message is never empty |
| AiControllerMain.NavigationSpeaksThree | campus-connect-backend-main/controllers/aiController.js:20-23 | only the first three steps are spoken: cutting the route to three steps leaves the speech unchanged, and each of the first three steps appears in it |
| AiControllerMain.SpokenStepContained | campus-connect-backend-main/controllers/aiController.js:20-23 | each of the first three steps appears in the joined step list |
| AiControllerMain.BuildingDefault | campus-connect-backend-main/controllers/aiController.js:42 | in English an unset or empty building reads exactly like the building 'main campus' |
| AiControllerMain.FloorZeroOmitted | campus-connect-backend-main/controllers/aiController.js:34-43 | a floor of 0 is left out of the sentence exactly like an unset floor, in both languages |
| AiControllerMain.DepartmentLocationBare | campus-connect-backend-main/controllers/aiController.js:42-48 | without floor, phone or opening time the English sentence is '<name> is located in <building>.' and nothing more |
| AiControllerMain.PhoneMentioned | campus-connect-backend-main/controllers/aiController.js:35-44 | a given contact phone appears in the spoken location, in both languages |
| AiControllerMain.OpeningMentioned | campus-connect-backend-main/controllers/aiController.js:36-46 | a given weekday opening time appears in the spoken location, in both languages |
| AiControllerMain.StudyMaterialsSingular | campus-connect-backend-main/controllers/aiController.js:53 | a count of one reads 'There is 1 study material available', singular verb and noun |
| AiControllerMain.StudyMaterialsPlural | campus-connect-backend-main/controllers/aiController.js:53 | any other count reads 'There are N study materials available' |
| AiControllerMain.StudyMaterialsFor | campus-connect-backend-main/controllers/aiController.js:53 | an empty department name adds nothing; a non-empty one inserts ' for <name>' just before the closing sentence and changes nothing else |
| AiControllerMain.MarkersAreNotAscii | campus-connect-backend-main/controllers/aiController.js:249 | every Hindi marker is non-empty and starts at or above U+0900 |
| AiControllerMain.TextNavigation | campus-connect-backend-main/controllers/aiController.js:121-166 | the corrected navigation intent gives a route answer exactly when both departments are found |
| AiControllerMain.TextNavigationAsWritten | campus-connect-backend-main/controllers/aiController.js:121-166 | as written, the navigation intent fails exactly when either department is missing, and the failure is the TypeError of reading 'latitude' of null |
| AiControllerMain.TextStudyPicks | campus-connect-backend-main/controllers/aiController.js:209-221 | at most three resources, fewer only when fewer match; each is a stored resource whose department matches the first department word, of any status, newest first |
| AiControllerMain.Bullets | campus-connect-backend-main/controllers/aiController.js:223 | one bullet per resource found |
| AiControllerMain.NavAnswer | campus-connect-backend-main/controllers/aiController.js:121-166 | when the first department is missing the language model answers the query |
| AiControllerMain.AskAI | campus-connect-backend-main/controllers/aiController.js:65-240 | a missing or empty query and nothing else fails with 'Please ask a question.'; a query that is a listed off-topic phrase as a whole gets the fixed off-topic reply; without a navigation request the location, study and language-model intents answer in that order |
| AiControllerMain.AskAIAsWritten | campus-connect-backend-main/controllers/aiController.js:65-240 | as written, every failure is either the missing query or the null-latitude TypeError |
| AiControllerMain.UnknownDepartmentFails | campus-connect-backend-main/controllers/aiController.js:149-166 | a route request whose first department does not exist fails with the TypeError as written |
| AiControllerMain.UnknownDepartmentAsksModel | campus-connect-backend-main/controllers/aiController.js:135-147 | the corrected handler answers that same request with the language model, as the comments intend |
| AiControllerMain.AnsweredAsIntended | campus-connect-backend-main/controllers/aiController.js:65-240 | whenever the handler as written answers, its answer is the corrected handler's |
| AiControllerMain.StudyRoutesDisagreeOnStatus | campus-connect-backend-main/controllers/aiController.js:214-220 | a pending resource of the department is listed by the text route and not counted by the voice route (also lines 345-350) |
| AiControllerMain.TextStudyKeepsPending | campus-connect-backend-main/controllers/aiController.js:214-220 | the text study query lists a matching resource whatever its status |
| AiControllerMain.VoiceStudySkipsPending | campus-connect-backend-main/controllers/aiController.js:345-350 | the voice study query never counts a pending resource |
| AiControllerMain.VoiceLanguage | campus-connect-backend-main/controllers/aiController.js:249-251 | the answer language is 'hi' or 'en', 'hi' exactly when the raw query contains a Hindi marker |
| AiControllerMain.LatinQueryIsEnglish | campus-connect-backend-main/controllers/aiController.js:249-251 | a query without any character at or above U+0900 is answered in English |
| AiControllerMain.VoiceNavigation | campus-connect-backend-main/controllers/aiController.js:283-303 | a missing from-department is reported by its own name; else a missing to-department by its name; the reply is never empty |
| AiControllerMain.VoiceLocation | campus-connect-backend-main/controllers/aiController.js:306-339 | a department word shorter than two characters gets the request for a department; otherwise a found department gets its spoken location and a missing one is reported by its name; never empty |
| AiControllerMain.VoiceStudyCount | campus-connect-backend-main/controllers/aiController.js:341-350 | the count is at most five approved resources whose department equals the upper-cased department word |
| AiControllerMain.VoiceStudy | campus-connect-backend-main/controllers/aiController.js:341-357 | with no approved resource for the department the reply says none exist for it; otherwise it gives the department and the count, at most five; never empty |
| AiControllerMain.VoiceBranch | campus-connect-backend-main/controllers/aiController.js:266-357 | navigation, location and study answer in that order; the reply is empty exactly when none of them applies |
| AiControllerMain.VoiceAnswer | campus-connect-backend-main/controllers/aiController.js:248-365 | the reply is in the query's language; a greeting is answered first, then an off-topic phrase, then the intents, and the language model only when no intent gave an answer |
| AiControllerMain.AskAIWithVoice | campus-connect-backend-main/controllers/aiController.js:243-387 | a missing query fails with 'Please ask a question.'; audio is sent only for a non-empty path that exists and that text-to-speech produced for the answer; a produced path that is empty or missing fails with 'Voice file generation failed' |
| AiControllerMain.HelloByRoute | campus-connect-backend-main/controllers/aiController.js:85 | 'hello' gets the off-topic reply in the text route and the English greeting in the voice route (also line 254) |
| AiControllerMain.OffTopicAnswered | campus-connect-backend-main/controllers/aiController.js:97-102 | a query that is a listed off-topic phrase gets the fixed off-topic reply |
| AiControllerMain.GreetingAnswered | campus-connect-backend-main/controllers/aiController.js:254-256 | a query that is a greeting gets the greeting in the query's language |
| AiControllerMain.Greeting | campus-connect-backend-main/controllers/aiController.js:10-12 | the greeting opens with 'नमस्ते!' in Hindi and 'Hello!' otherwise, and ends with a question mark |
| AiControllerMain.OffTopic | campus-connect-backend-main/controllers/aiController.js:14-16 | the refusal opens with 'क्षमा करें' in Hindi and 'I apologize' otherwise, and names MMMUT |
| AiControllerMain.RouteText | campus-connect-backend-main/controllers/aiController.js:149-166 | the answer names both departments in bold; with a route it holds the summary and every step as 'Step i: s', numbered from 1; without one it holds the approximate distance in meters |
| AiControllerMain.LocationText | campus-connect-backend-main/controllers/aiController.js:197-200 | the answer opens with the department name in bold, names the building ('Main Campus' by default) in bold, the floor when one is shown and both coordinates, and ends with the map link when one is given |
| AiControllerMain.TextLocation | campus-connect-backend-main/controllers/aiController.js:170-205 | a department word shorter than two characters asks for a name; a found department gets its location answer; otherwise the reply says the word, in bold, was not found |
| AiControllerMain.TextStudy | campus-connect-backend-main/controllers/aiController.js:209-229 | with resources found every one is listed as a bullet link under 'Here are study materials'; with none the reply starts 'No study materials found'; a department word is named upper-cased in bold after ' for ' |
| AiControllerMain.TextRest | campus-connect-backend-main/controllers/aiController.js:169-235 | location keywords come first, then study keywords, and anything else is answered by the language model with the campus prompt |
| AiControllerBackend.EventLines | backend/controllers/aiController.js:55 | one display line per event |
| AiControllerBackend.BusLines | backend/controllers/aiController.js:68 | one display line per bus |
| AiControllerBackend.FinalSteps | backend/controllers/aiController.js:77-85 | a broken route (no route, no steps, not an array, no step, or a step that is falsy, 'undefined' or not a string) gets the dummy steps of the language; otherwise the route's own steps, one for one; either way at least one step, none empty or 'undefined' |
| AiControllerBackend.Summary | backend/controllers/aiController.js:86 | the route's summary when it has a non-empty one, else the language's default; never empty |
| AiControllerBackend.Duration | backend/controllers/aiController.js:87 | the route's duration when it is set and non-zero, else '2' |
| AiControllerBackend.Links | backend/controllers/aiController.js:130 | one link per resource found |
| AiControllerBackend.SpeechUsesThreeSteps | backend/controllers/aiController.js:92-98 | the speech uses at most the first three steps: what follows them never changes it, and each of them appears in it |
| AiControllerBackend.DisplayListsEveryStep | backend/controllers/aiController.js:101-107 | every step appears in the display as '• Step i: s', numbered from 1 |
| AiControllerBackend.BrokenRoutesAgree | backend/controllers/aiController.js:78-87 | a broken route without summary or duration reads exactly like no route: dummy steps and the default summary |
| AiControllerBackend.BadStepForcesDummy | backend/controllers/aiController.js:82-85 | one bad step replaces all steps with the dummy ones, whatever the other steps are |
| AiControllerBackend.Events | backend/controllers/aiController.js:54-60 | the events speech starts with the number of events and names the first event; the display names every event in bold |
| AiControllerBackend.Greeting | backend/controllers/aiController.js:44-47 | the display with its `*` marks removed is the speech after a waving hand; the speech opens with 'नमस्ते!' in Hindi and 'Hello!' otherwise |
| AiControllerBackend.OffTopic | backend/controllers/aiController.js:49-52 | the display carries the bold 'Off Topic' heading |
| AiControllerBackend.OffTopicIgnoresLanguage | backend/controllers/aiController.js:49-52 | the off-topic texts are the same in every language |
| AiControllerBackend.Mess | backend/controllers/aiController.js:62-65 | the display ends with the menu of the day; the speech is the fixed menu sentence |
| AiControllerBackend.Buses | backend/controllers/aiController.js:67-73 | every bus appears in the display as its route in bold and its time; the speech is the fixed timetable sentence |
| AiControllerBackend.Navigation | backend/controllers/aiController.js:76-110 | the speech is made from the first three of the steps used (the route's, or the dummy ones when it is broken) and holds each of them; the display lists every step as '• Step i: s', numbered from 1 |
| AiControllerBackend.NavigationFallback | backend/controllers/aiController.js:112-118 | both texts give the distance in meters, and the map link searches for the destination's coordinates |
| AiControllerBackend.DepartmentLocation | backend/controllers/aiController.js:120-127 | the speech says where the department is, with 'Main Campus' as the default building; the display names it in bold with its building, its phone ('N/A' by default) and its map link ('#' by default) |
| AiControllerBackend.StudyMaterials | backend/controllers/aiController.js:129-135 | the speech gives the count and the department; the display links every resource by its title and file |
| AiControllerBackend.NoMaterials | backend/controllers/aiController.js:137-140 | both texts name the department, the display in bold |
| AiControllerBackend.NotFound | backend/controllers/aiController.js:142-145 | both texts name what was looked for, the display ends with it in bold |
| AiControllerBackend.LocationResponse | backend/controllers/aiController.js:210-214 | a found department gets its location texts, otherwise the not-found texts for the stripped name |
| AiControllerBackend.VoiceResponse | backend/controllers/aiController.js:178-229 | each intent is answered by its own builder: navigation, greeting, events, mess, bus, location, notes and the language model fallback |
| AiControllerBackend.Language | backend/controllers/aiController.js:171-172 | 'hi' exactly when the raw query contains one of the Hindi markers, else 'en' |
| AiControllerBackend.IntentOf | backend/controllers/aiController.js:178-229 | the intent is the first whose test holds, in the order navigation, greeting, events, mess, bus, location, notes, each test looking for its words anywhere in the query; the language model otherwise (each case an if-and-only-if) |
| AiControllerBackend.NavigationResponse | backend/controllers/aiController.js:179-200 | no capture leaves both texts empty; a missing from-department is reported by its name, else a missing to-department by its name; two departments found give the route's response when the route resolves, and the fallback walk with the planar distance when the router throws |
| AiControllerBackend.NotesPicks | backend/controllers/aiController.js:216-220 | the first three resources matching the department word, in storage order, of every status; fewer only when fewer match |
| AiControllerBackend.NotesResponse | backend/controllers/aiController.js:215-223 | with a department word, the found notes are listed under that department or the reply says none exist for it; without one the list is titled 'General' when something is found and 'that department' when nothing is |
| AiControllerBackend.FallbackResponse | backend/controllers/aiController.js:225-229 | the display is the language model's answer as it is; the speech is that answer with every `**` removed, so it holds no `**`, keeps every other character in order, and equals the display when there was none |
| Strings.RemoveDoubleKeepsOthers | backend/controllers/aiController.js:227 | removing every doubled character keeps every other character, in order |
| Strings.ReplaceAllUnmatched | backend/controllers/aiController.js:227 | a text without the pattern is left unchanged by a global replace |
| AiControllerBackend.Basename | backend/controllers/aiController.js:234 | the part after the last '/', which holds no '/' |
| AiControllerBackend.AskAI | backend/controllers/aiController.js:155-162 | fails exactly when the query is missing or empty; otherwise the language model's answer to 'Answer briefly: ' and the query |
| AiControllerBackend.AskAIWithVoice | backend/controllers/aiController.js:165-240 | a missing query fails with 'Query missing'; an error of text-to-speech is handed on; otherwise the answer is the display text and the audio address is '/voices/' plus the file name, given exactly when the path is non-empty and the file exists |
| AiControllerBackend.NavigationWithoutCapture | backend/controllers/aiController.js:179-181 | when the navigation test holds but the capture pattern does not match, no later intent runs and both texts stay empty |
| AiControllerBackend.LatinIsEnglish | backend/controllers/aiController.js:171-172 | a query without any character at or above U+0900 is answered in English |
| AiControllerBackend.GreetingInsideWords | backend/controllers/aiController.js:202 | a query of lower-case letters and inner spaces with 'hi' inside any word is answered with the English greeting, whatever else it asks |
| AiControllerBackend.GreetsWhenContained | backend/controllers/aiController.js:202 | without navigation, a query passing the greeting test gets the greeting in its language |
| AiControllerBackend.WhichBusGreets | backend/controllers/aiController.js:202-208 | 'which bus' gets the greeting, not the bus schedule |

## Left out

- Regular expressions.
  - The two navigation patterns of each assistant, the "where is X" capture of the main assistant and the navigation test of the backend assistant are inputs to the model: match results or capture groups.
  - Alternations of literal words, whole-string lists and whole-word codes are modelled exactly, as substring, equality or word checks.
  - Text interpolated into a `$regex` is taken literally; what special characters in it would do is not modelled.
- Case-insensitive matching and `toLowerCase`/`toUpperCase` are ASCII-only; Unicode case folding is not modelled.
- JavaScript `\s` is a fixed set of whitespace characters.
- MongoDB and Mongoose.
  - Collections are sequences in insertion order. Ids grow with insertion, so id order stands for `createdAt` order.
  - `sort` is applied before `limit` whatever the order of the calls, as the database does. This includes `Resource.find(filter).limit(3).sort(...)` in the main `askAI`.
  - `populate` and `select` projections are not modelled.
  - Database failures, `CastError`s from malformed ids, and the exact wording of Mongoose's schema errors are not modelled. A schema violation is a list of the constraints broken.
  - `findByIdAndUpdate`'s `runValidators` is modelled only through the schema predicate the stores keep.
- Joi.
  - Type coercion of strings to numbers is not modelled; a body value has the JSON type it arrives with.
  - The URI rule is reduced to a link that starts with `http://` or `https://` and has no space; `http:/` and `https:/` draw Joi's plain uri message. The full RFC 3986 grammar is not modelled.
- Request values that are not strings, such as a `qry` that is a number or an array, are not modelled; an absent or empty value is.
- Numbers.
  - Coordinates, floors and the planar `×111000` distance are inputs.
  - The assistants print numbers through the parameter `num`, which the model leaves unconstrained.
  - `averageRating.toFixed` is floating point and is not part of this model.
- MapUtils.GetMapUrl: only numbers that JavaScript prints without an exponent are modelled, that is magnitudes below 10^21 and, unless zero, at least 10^-6 (`ValidDecimal`). `String(1e21)` gives `1e+21` and `String(1e-7)` gives `1e-7`, and neither is covered. Double-precision rounding is not modelled either: a `Decimal` may have more digits than a double keeps.
- Libraries.
  - bcrypt hashing and comparison, and JWT signing and verification, are parameters.
  - Token expiry and the secrets are not modelled.
  - AuthMiddleware.IssuedTokenAccepted: takes as given that `verify` accepts what `sign` issued. That fails when `JWT_SECRET` is unset: the controller signs with its fallback `'your-default-secret-key'` (campus-connect-backend-main/controllers/authController.js:6), while `protect` verifies with `process.env.JWT_SECRET` alone (campus-connect-backend-main/utils/authMiddleware.js:20), so every issued token is then refused.
- External services.
  - The Gemini client is the function `ai`, and gTTS synthesis is the function `tts`.
  - `getRouteBetweenPoints` is `routeOf`, which resolves or throws.
  - An error thrown by `generateText` is not modelled.
  - The `sendFile` callback error ('Failed to send voice response') is not modelled.
  - `ensureVoicesDir` and `getVoiceFileInfo` (file sizes and durations) are not part of this model.
- Time and concurrency.
  - `Date.now()` is the parameter `now`.
- VoiceDir.VoiceStore.TextToSpeech: runs `CleanupOldFiles` before it returns. The source defers that cleanup with `setImmediate` and returns first, so the file count right after the reply is not modelled. The model's state is the one once the deferred cleanup has run.
- VoiceDir.VoiceStore.DeleteAll: every unlink succeeds in the model. In the source a failed `fs.unlink` is caught and logged, and that file stays (backend/utils/voiceUtils.js:48-53). A failed `readdir` ends the cleanup with nothing deleted (line 59).
- VoiceDir.VoiceStore.LookupCache: an expired candidate's unlink always succeeds. In the source a failed `unlink` inside the loop is caught, so that file stays and the scan goes on (backend/utils/voiceUtils.js:153-157). A failed `stat` is modelled, as a file with no time: the cache loop skips it and `cleanupOldFiles` sorts it as oldest. A failed `readdir` of the cache lookup (line 139) is not modelled.
- VoiceDir.SortNewest: keys the sort on a whole-millisecond `mtime`, while the source sorts on the fractional `stats.mtimeMs` (backend/utils/voiceUtils.js:34). Two files whose times differ by less than a millisecond tie in the model and can be ordered the other way in the source, so the cleanup may keep a different file. The cache test `stats.mtimeMs > fiveMinutesAgo` (line 147) is likewise decided on whole milliseconds, which moves the cutoff by under 1 ms. The sort's stability is not stated.
- Text lengths: every length rule counts Unicode scalar values, while JavaScript's `.length`, Joi's `.min`/`.max` and Mongoose's `minlength`/`maxlength` count UTF-16 code units. A text with characters outside the Basic Multilingual Plane can therefore pass or fail a length rule differently: a password of three U+1F600 characters is six units and accepted by the source, but three characters and refused in the model. This affects AuthController.RegisterRefusal, DepartmentController.SearchDepartments, StudyHubController.SearchResources, AiControllerMain.VoiceLocation, AiControllerMain.LocationName, DepartmentValidator.Validate, ResourceValidator.Validate, DepartmentModel.SchemaErrors and ResourceModel.SchemaErrors.
- VoiceText.CacheKey: counts characters as Unicode scalar values. JavaScript's `substring(0, 80)` and the `/[^a-zA-Z0-9]/g` replacement work on UTF-16 code units. A character outside the Basic Multilingual Plane therefore becomes two `_` in the source and one in the model, and the 80-unit cut can fall at a different place.
- VoiceText.EnglishSpellsCse: states the English spellings on literal example texts. The all-inputs statements are EnglishRewriteKeepsWording, which preserves the spoken words, and, for each single replacement pass, ReplaceWordSplits, WordAlone and SpellKeepsOtherWord, which together determine its result on every text.
- VoiceText.NormalizeLang: keeps the names inherited from `Object.prototype` (such as `constructor` and `toString`) as the source does. Its callers in both assistants pass only `en` or `hi` (campus-connect-backend-main/controllers/aiController.js:251, backend/controllers/aiController.js:172).
- StudyHubController.GetResourcesByDepartment: the department parameter is taken as decoded once, as Express gives it. The handler's second `decodeURIComponent` is not modelled: the URIError on a stray `%`, and text such as `%2541` being decoded twice (campus-connect-backend-main/controllers/studyHubController.js:30).
- StudyHubController.SearchResources: the same second decoding of `department` and `keyword`, in the filter and in the reply hints (campus-connect-backend-main/controllers/studyHubController.js:107-140), is not modelled.
- DepartmentModel.DepartmentStore.IncrementSearchAll: models the search-count bump as intended and awaited. As written, the bump is lost: see Findings and DepartmentController.SearchBumpsNothingAsWritten.
- `AiControllerBackend.Basename`: only paths without a trailing `/` are described as `path.basename` gives them.
- `AdminRoutes` sits behind the `protect` and `admin` of `campus-connect-backend-main/utils/authMiddleware.js`. The route file requires `backend/utils/authMiddleware`, which is not part of this model.
- The User schema file is not part of this model. `Users` states only what the two auth files rely on: one account per normalised address, and the role 'user' by default.
- Express wiring, rate limits, CORS, static serving, `validateRequest.js`, the seed script and the React frontend are outside the core.

Observed behaviour that the model keeps as written, proved without treating it as a bug:

- The text assistant lists study resources of every status, while the voice assistant counts approved ones only (`AiControllerMain.StudyRoutesDisagreeOnStatus`).
- The backend assistant's greeting test finds "hi" inside any word, so "which bus" is greeted (`AiControllerBackend.WhichBusGreets`).
- "hello" is off-topic in the text route and a greeting in the voice route (`AiControllerMain.HelloByRoute`).
- The voice cache window is five minutes, as the code has it, not the thirty minutes of its comment. Matching by prefix lets a longer text's file satisfy a shorter key.

## Findings

| source | as written | input that shows it | evidently intended | confidence | as-written member | corrected member |
|---|---|---|---|---|---|---|
| campus-connect-backend-main/controllers/aiController.js:121-166 | the route is computed from `fromDept.latitude` whether or not both departments were found, and the `catch` reads it again | the query "library to nowhere" with no department called "library" in the collection: `findOne` gives null and `fromDept.latitude` throws a TypeError, which the handler passes to `next` as an error | the comments at 135-147 say a missing department falls through to the language model | not executed | AiControllerMain.AskAIAsWritten, AiControllerMain.UnknownDepartmentFails | AiControllerMain.AskAI, AiControllerMain.UnknownDepartmentAsksModel, AiControllerMain.AnsweredAsIntended |
| campus-connect-backend-main/models/Resource.js:139-145 | `addRating` adds each value to `rating`, which the schema at lines 87-96 caps at 5 | two ratings of 3: the sum 6 breaks the cap, so the save after the second rating fails validation | `rating` holds the sum of ratings and `averageRating` divides it by `ratingCount`; the cap was meant for one rating, so the sum has no upper bound | not executed | ResourceModel.DeclaredRatingBound, ResourceModel.DeclaredRefusesSecondRating | ResourceModel.SchemaErrors, ResourceModel.RatedStaysValid, ResourceModel.RateAllAverage |
| campus-connect-backend-main/models/Resource.js:46-57 | the schema requires `semester` and `subject`, while the validator makes both optional and the upload handler (campus-connect-backend-main/controllers/studyHubController.js, lines 81 and 84) stores `semester: null` | an upload with a title, department and file URL only: it passes the validator, then `Resource.create` fails on the missing semester and subject | an upload the validator accepts is stored as pending: semester and subject optional, and an empty subject allowed as the validator's `.allow('')` does (campus-connect-backend-main/validators/resourceValidator.js, line 70), which dropping `required` alone would not give since `minlength: 2` refuses `''`. The exceptions are where the schema's own `trim: true` setters (lines 8, 20 and 55) take the title below three characters, the department to nothing or a named subject to a single character, which the schema still refuses; the validator trims only the tags | not executed | StudyHubController.DeclaredSchemaRefusesUpload | ResourceModel.SchemaErrors, StudyHubController.UploadSucceeds |
| campus-connect-backend-main/controllers/departmentController.js:147-158 | the search loads its results with a projection of nine fields that leaves out `searchCount`, then calls `incrementSearch()` on each without awaiting it | `GET /departments/search?name=CSE` with a CSE department stored: on the loaded document `this.searchCount` is `undefined`, `undefined + 1` is `NaN`, the cast to Number fails, `save()` rejects, the rejection goes unhandled and the stored count stays as it was | each department a search returns gains one search in the collection, as the comment at line 157 says | not executed | DepartmentController.SearchBumpsNothingAsWritten, DepartmentController.BumpsLostWithoutCount | DepartmentController.SearchDepartments, DepartmentController.SearchBumpsEachResultOnce, DepartmentController.SearchBumpsWithCountSelected |
