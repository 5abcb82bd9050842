# Error translation and request-input rules of the FixFast API

This project models the error-translation layer of the FixFast NestJS backend in Dafny, together with the two small rules that guard its requests.

- **Error sanitizer** (`error_sanitizer.dfy`, module `ErrorSanitizer`).
  - An `ErrorSanitizer` is two read-only flags, `isProduction` and `showDetailedErrors`, derived from `NODE_ENV` and `SHOW_DETAILED_ERRORS`.
  - When the process runs in production with detailed errors off, the sanitizer replaces PostgreSQL constraint names and column names by approved Spanish phrases. It looks names up in two constant tables and falls back to a naming heuristic (the second-to-last `_` segment).
  - In the same mode it strips source locations (`/path/file.ts:12:3`), stack lines and `at X.Y` frame references from free-text messages. The two regular expressions are modelled as scanners (`PathMatchLength`, `FrameMatchLength`), and `replace(/…/g, '')` is modelled as `RemoveAll`.
  - `getErrorSanitizer` is a module-level, first-call-wins singleton. It is the class `SanitizerRegistry`, whose field `instance` is the module variable.
- **Database-error translator** (`database_error.dfy`, module `DatabaseError`).
  - `handleDatabaseError` classifies any thrown value and throws exactly one HTTP exception. It uses the SQLSTATE codes 23505, 23503, 23502 and 23514 of class 23 and 22P02 of class 22 (Appendix A of the PostgreSQL documentation).
  - It is modelled as a function returning the exception it throws. `executeWithErrorHandling` is modelled on the `Outcome` (returned or threw) of the wrapped operation.
- **Global exception filter** (`exception_filter.dfy`, module `ExceptionFilter`).
  - `catch` is an ordered first-match dispatch from a thrown value to `(status, {message})`, with its own copy of the code table.
  - It is the class `HttpExceptionFilter`, whose `Catch` method updates `status` and `message` step by step. It is proved equal to the reference function `Respond`.
- **Pagination query** (`pagination.dfy`, module `Pagination`). This covers the schema's `page`/`limit` transforms: JavaScript's `parseInt(val, 10)` with defaults, then range checks. A failed check becomes a bad request through the validation pipe.
- **Users listing** (`users_controller.dfy`, module `UsersController`). `FindAll` models the body of the `findAll` handler: the `activeOnly` flag and the page-to-offset conversion. `FindAllEndpoint` models the route as declared, with the method-level validation pipe in front of the body (see "## Findings").
- **Role guard** (`roles_guard.dfy`, module `RolesGuard`). `canActivate` either allows access or throws `ForbiddenException`.

The supporting modules are:

- `wrappers.dfy` holds `Option`, `Result` and JavaScript truthiness of an optional string.
- `text.dfy` holds the JavaScript string operations used above: `\s`, `trim`, `toLowerCase`, `split`/`join`, `includes`.
- `exceptions.dfy` holds the value model of a thrown value: an HTTP exception of some class, another `Error`, or any other value carrying optional PostgreSQL fields.
- `sanitizer_examples.dfy` holds worked examples on concrete names and messages.

## Behaviour worth noting

Each of these is stated as a lemma about the model.

- **Page and limit are rejected, not clamped.** Out-of-range `page` and `limit` values are refused by the schema (`.min(1)`, `.max(100)`); nothing brings them into range. See `PageZeroRejected`, `LimitFiveHundredRejected` and `NegativePageRejected`.
- **Message sanitizing is idempotent only when it is off.** Without sanitization, sanitizing twice is sanitizing once (`InactiveSanitizeIdempotent`). With sanitization on, removing `at a.b` can join the text around it into a new source location, which a second pass removes: `'/qat a.b.ts:1:2'` becomes `'/q.ts:1:2'`, which becomes `''` (`ActiveSanitizeNotIdempotent`).
- **The reply does not always carry a message string.** An `HttpException` whose response `message` is an empty list gives `msg[0] === undefined`, and the JSON body then has no `message` (`EmptyMessageListGivesNoMessage`).

- Only `BadRequestException`, `ConflictException`, `NotFoundException` and `InternalServerErrorException` pass through `handleDatabaseError` unchanged. Any other HTTP exception without a code becomes an internal server error, including `ForbiddenException` and a `DatabaseException` without a code (`NoPassthroughForOtherClasses`).
- The bootstrap code builds the global filter with `new HttpExceptionFilter()` (src/main.ts, line 34), whose field initialiser calls `getErrorSanitizer()` without a configuration before anything else can. The singleton therefore never sanitizes, whatever configuration a request later presents, and a generic `Error` reaches the client with its own trimmed message (`BootstrapFixesDevelopmentMode`). The same holds when the first call comes from a failing `executeWithErrorHandling` (`FirstFailureFixesDevelopmentMode`), which has no caller in the repository.
- The filter's `DatabaseException` branch is unreachable, because `DatabaseException` extends `HttpException` (`DatabaseExceptionTakesHttpBranch`, and the `assert false` in `Catch`).
- For an unknown code, the filter's message differs from the translator's (`UnknownCodeMessagesDiffer`). The statuses agree for every code (`StatusTablesAgree`). The messages of the five named codes agree only when the entity is `registro` (`MessageTablesAgree`). For any other context the unique-violation text differs: the filter writes `Ya existe un registro con este …` and the translator names the entity it is given, such as `cliente` (`UniqueViolationMessagesDiffer`).

## Model

| member | source | states |
|---|---|---|
| ErrorSanitizer.NewSanitizer | src/common/utils/error-sanitizer.util.ts:43-48 | outside production, detailed errors are always shown |
| ErrorSanitizer.SanitizationPolicy | src/common/utils/error-sanitizer.util.ts:43-48 | sanitization is on iff NODE_ENV is `production` and SHOW_DETAILED_ERRORS is not `true`; with no configuration detailed errors are shown |
| ErrorSanitizer.DetailedIffInactive | src/common/utils/error-sanitizer.util.ts:43-48 | for a constructed sanitizer, `shouldShowDetailedErrors()` holds iff sanitization is off |
| ErrorSanitizer.ShouldShowDetailedErrors | src/common/utils/error-sanitizer.util.ts:121-123 | a sanitizer that shows detailed errors never sanitizes |
| ErrorSanitizer.SanitizeConstraint | src/common/utils/error-sanitizer.util.ts:54-80 | an absent or empty name gives `campo único` in every mode; when active, a name whose lower case has a table entry gets that entry, any other is judged by the naming heuristic on its lower case, and the result is always an approved phrase; when inactive a non-empty name is returned unchanged |
| ErrorSanitizer.ConstraintPhrase | src/common/utils/error-sanitizer.util.ts:60-76 | a lower-cased name with a table entry gets that entry, which wins over the heuristic; a name without one gets the heuristic's phrase; the result is always an approved constraint phrase |
| ErrorSanitizer.SegmentPhrase | src/common/utils/error-sanitizer.util.ts:69-75 | the naming heuristic yields a column phrase or `campo único` |
| ErrorSanitizer.ActiveConstraint | src/common/utils/error-sanitizer.util.ts:60-62 | when active, a non-empty name is judged by its lower-cased form |
| ErrorSanitizer.SegmentOfJoin | src/common/utils/error-sanitizer.util.ts:69-71 | a name joined from `_`-free segments has, as its second-to-last split segment, the second-to-last of those segments |
| ErrorSanitizer.SecondToLastSegment | src/common/utils/error-sanitizer.util.ts:67-73 | when active, a name with no table entry is reported by the column phrase of its second-to-last segment, or `campo único` |
| ErrorSanitizer.NoSegmentsGeneric | src/common/utils/error-sanitizer.util.ts:69-75 | when active, a name without `_` and without a table entry gives `campo único` |
| ErrorSanitizer.KeySuffixHasNoPhrase | src/common/utils/error-sanitizer.util.ts:7-17 | no name ending in `_key` (or any name whose fourth-to-last character is `_`) has an entry in the constraint table |
| ErrorSanitizer.KeyNameSegments | src/common/utils/error-sanitizer.util.ts:62-69 | `<table>_<column>_key` in lower case is its own lower case, splits into table, column and `key`, and has no table entry |
| ErrorSanitizer.KeyConstraintNamedAfterColumn | src/common/utils/error-sanitizer.util.ts:60-76 | when active, the constraint `<table>_<column>_key` is reported by its column's phrase, or `campo único` |
| ErrorSanitizer.SanitizeColumn | src/common/utils/error-sanitizer.util.ts:86-98 | an absent or empty name gives `campo`; when active a name whose lower case has a table entry gets that entry and any other name gets `campo`; when inactive a non-empty name is returned unchanged |
| ErrorSanitizer.SourceLocationLength | src/common/utils/error-sanitizer.util.ts:108 | a match of `\.(ts\|js):\d+:\d+` never extends past the text |
| ErrorSanitizer.PathMatchLength | src/common/utils/error-sanitizer.util.ts:108 | a match of the source-location pattern never extends past the text |
| ErrorSanitizer.PathMatchNoSpace | src/common/utils/error-sanitizer.util.ts:108 | a source-location match contains no white space, and so no line break |
| ErrorSanitizer.FrameMatchLength | src/common/utils/error-sanitizer.util.ts:112 | a match of `at\s+\w+\.\w+` never extends past the text |
| ErrorSanitizer.RemoveAll | src/common/utils/error-sanitizer.util.ts:108 | a global replace by the empty string never lengthens the text |
| ErrorSanitizer.RemoveAllIsSubsequence | src/common/utils/error-sanitizer.util.ts:108 | a global replace by the empty string only deletes characters |
| ErrorSanitizer.RemoveAllKeepsOneLine | src/common/utils/error-sanitizer.util.ts:110-112 | removing frame references from the first line introduces no line break |
| ErrorSanitizer.RemoveAllFirstLine | src/common/utils/error-sanitizer.util.ts:108-110 | when no match contains a line break, the first line after the removal keeps only characters of the original first line |
| Text.FirstLine | src/common/utils/error-sanitizer.util.ts:110 | `split('\n')[0]` is the longest prefix without a line break |
| Text.FirstLineAppend | src/common/utils/error-sanitizer.util.ts:110 | text without a line break in front of a string belongs to its first line |
| ErrorSanitizer.RemoveAllFirstMatch | src/common/utils/error-sanitizer.util.ts:108 | the leftmost match is cut out, the text before it is kept, and the scan resumes after it |
| ErrorSanitizer.NoSlashNoPath | src/common/utils/error-sanitizer.util.ts:108 | text without `/` has no source location to remove |
| ErrorSanitizer.NoLetterANoFrame | src/common/utils/error-sanitizer.util.ts:112 | text without `a` has no frame reference to remove |
| ErrorSanitizer.StripTechnicalDetails | src/common/utils/error-sanitizer.util.ts:106-113 | the three sanitizing steps leave no line break and keep only characters of the message's first line, in order |
| ErrorSanitizer.StripTechnicalDetailsDeletesOnly | src/common/utils/error-sanitizer.util.ts:106-113 | the three sanitizing steps only delete characters of the message |
| ErrorSanitizer.SanitizeErrorMessage | src/common/utils/error-sanitizer.util.ts:104-116 | the result is always trimmed; when active it is the first line of the message with some characters deleted; when inactive it is exactly `message.trim()` |
| ErrorSanitizer.SanitizeErrorMessageDeletesOnly | src/common/utils/error-sanitizer.util.ts:104-116 | in every mode the result is the message with some characters deleted |
| ErrorSanitizer.InactiveSanitizeIdempotent | src/common/utils/error-sanitizer.util.ts:115 | when inactive, sanitizing twice equals sanitizing once |
| ErrorSanitizer.SanitizeOneLine | src/common/utils/error-sanitizer.util.ts:106-115 | when the path removal leaves a single line, sanitizing is the two removals |
| ErrorSanitizer.SanitizerRegistry.constructor | src/common/utils/error-sanitizer.util.ts:130 | the singleton starts empty |
| ErrorSanitizer.SanitizerRegistry.GetErrorSanitizer | src/common/utils/error-sanitizer.util.ts:135-140 | the first call builds the instance from its configuration and stores it; every later call returns the stored instance and ignores its configuration |
| ErrorSanitizer.FirstCallWins | src/common/utils/error-sanitizer.util.ts:135-140 | two calls return the same instance, built from the first configuration |
| SanitizerExamples.ConstraintExampleEmail | src/common/utils/error-sanitizer.util.ts:69-72 | when active, `users_email_key` is reported as `email` |
| SanitizerExamples.ConstraintExampleUsername | src/common/utils/error-sanitizer.util.ts:69-72 | when active, `users_username_key` is reported as `nombre de usuario` |
| SanitizerExamples.ConstraintExamplePlate | src/common/utils/error-sanitizer.util.ts:69-72 | when active, `vehicles_plate_key` is reported as `campo único` |
| SanitizerExamples.ConstraintExampleTable | src/common/utils/error-sanitizer.util.ts:62-65 | when active, the name `unique` gets its table entry `valor único`, where the naming heuristic alone would give `campo único` |
| SanitizerExamples.ConstraintExampleDevelopment | src/common/utils/error-sanitizer.util.ts:79 | without a configuration the real constraint name is shown |
| SanitizerExamples.NoPathAtStart | src/common/utils/error-sanitizer.util.ts:108 | `/qat a.b.ts:1:2` has no source location at its start, because the space stops `[^\s]+` |
| SanitizerExamples.PathsFirstPass | src/common/utils/error-sanitizer.util.ts:108 | the path removal leaves `/qat a.b.ts:1:2` unchanged |
| SanitizerExamples.FrameAtStart | src/common/utils/error-sanitizer.util.ts:112 | `at a.b` is a six-character frame reference |
| SanitizerExamples.FramesFirstPass | src/common/utils/error-sanitizer.util.ts:112 | the frame removal turns `/qat a.b.ts:1:2` into `/q.ts:1:2` |
| SanitizerExamples.PathAtStart | src/common/utils/error-sanitizer.util.ts:108 | `/q.ts:1:2` is one source location from start to end |
| SanitizerExamples.PathsSecondPass | src/common/utils/error-sanitizer.util.ts:108 | the path removal deletes `/q.ts:1:2` entirely |
| SanitizerExamples.SanitizeOnce | src/common/utils/error-sanitizer.util.ts:104-116 | when active, `/qat a.b.ts:1:2` is sanitized to `/q.ts:1:2` |
| SanitizerExamples.SanitizeAgain | src/common/utils/error-sanitizer.util.ts:104-116 | when active, `/q.ts:1:2` is sanitized to the empty string |
| SanitizerExamples.ActiveSanitizeNotIdempotent | src/common/utils/error-sanitizer.util.ts:104-116 | when active, sanitizing twice differs from sanitizing once |
| Exceptions.NewDatabaseException | src/common/exceptions/database.exception.ts:7-23 | a `DatabaseException` is an `HttpException` with status 500; its response object carries its message, and the exception itself carries its code |
| DatabaseError.EntityName | src/common/utils/database-error.util.ts:53 | an absent or empty context gives no label; any other is the context after one space |
| DatabaseError.PassedThroughClasses | src/common/utils/database-error.util.ts:56-63 | an HTTP exception passes through iff its class is one of the four; no other `Error` or value does |
| DatabaseError.TranslateCode | src/common/utils/database-error.util.ts:68-106 | a non-empty code gives a conflict iff it is 23505, a bad request iff it is one of 23503, 23502, 23514 and 22P02, and an internal server error iff it is none of the five |
| DatabaseError.TranslateError | src/common/utils/database-error.util.ts:109-133 | an `Error` without a code gives an internal server error; with detailed errors off its message is the connection message or the unexpected-error message |
| DatabaseError.HandleDatabaseError | src/common/utils/database-error.util.ts:47-139 | the result is always one of the four translated classes; those four are rethrown unchanged; anything else gets a fresh exception |
| DatabaseError.TranslatedStatus | src/common/utils/database-error.util.ts:47-139 | the thrown status is 400, 404, 409 or 500 |
| DatabaseError.HandleIdempotent | src/common/utils/database-error.util.ts:56-63 | translating a translated exception changes nothing |
| DatabaseError.NoPassthroughForOtherClasses | src/common/utils/database-error.util.ts:56-63 | any other HTTP exception without a code is replaced by an internal server error |
| DatabaseError.UniqueViolationIsConflict | src/common/utils/database-error.util.ts:70-76 | 23505 gives a conflict `Ya existe un{ context} con este <sanitized constraint>` |
| DatabaseError.ForeignKeyIgnoresContext | src/common/utils/database-error.util.ts:78-82 | 23503 gives the invalid-reference bad request whatever the context |
| DatabaseError.OtherRecognisedCodesAreBadRequests | src/common/utils/database-error.util.ts:84-100 | 23502 names the sanitized column; 23514 and 22P02 give their fixed bad-request messages |
| DatabaseError.UnknownCodeIsInternal | src/common/utils/database-error.util.ts:102-105 | any other non-empty code gives `Error de base de datos al procesar{ context}` with status 500 |
| DatabaseError.ConnectionProblem | src/common/utils/database-error.util.ts:109-118 | an `Error` whose raw message contains `connection` or `timeout` gives the connection message, in every mode |
| DatabaseError.UnexpectedError | src/common/utils/database-error.util.ts:120-132 | any other `Error` gives status 500, with the sanitized message appended exactly when detailed errors are shown |
| DatabaseError.UnknownValue | src/common/utils/database-error.util.ts:135-138 | a non-`Error` value without a code gives `Error desconocido al procesar{ context}` |
| DatabaseError.NoLeakWhenSanitizing | src/common/utils/database-error.util.ts:68-138 | when active, every message the translator writes is an approved one: a fixed text, a text naming the entity, or a text around an approved phrase |
| DatabaseError.ExecuteWithErrorHandling | src/common/utils/database-error.util.ts:155-164 | a returned value is passed on unchanged; a thrown value becomes a thrown translated exception |
| DatabaseError.ExecuteIdempotent | src/common/utils/database-error.util.ts:155-164 | wrapping an operation twice is wrapping it once |
| DatabaseError.HandleDatabaseErrorWith | src/common/utils/database-error.util.ts:52 | the translator uses the singleton, built from this configuration only if it did not exist yet |
| DatabaseError.ExecuteWith | src/common/utils/database-error.util.ts:155-164 | the singleton is touched only when the operation throws, and then without a configuration |
| DatabaseError.FirstFailureFixesDevelopmentMode | src/common/utils/database-error.util.ts:162 | if a failing wrapped operation asks first, the sanitizer never sanitizes, even when a production configuration comes later |
| ExceptionFilter.PostgresErrorCodes | src/common/filters/http-exception.filter.ts:111-120 | `isPostgresError` accepts an `Error` with any of the five named codes, never a value that is not an `Error`, and only codes starting with `22` or `23` |
| ExceptionFilter.GetHttpStatusFromPostgresError | src/common/filters/http-exception.filter.ts:125-137 | the status is 400, 409 or 500, and it is 409 iff the code is 23505 |
| ExceptionFilter.GetMessageFromPostgresError | src/common/filters/http-exception.filter.ts:143-164 | when active, the message is an approved filter message |
| ExceptionFilter.HttpMessage | src/common/filters/http-exception.filter.ts:49-60 | a string response is the message; an object's `message` string is the message; a non-empty `message` list gives its first element; an object without `message` keeps the default; there is no message iff the `message` list is empty |
| ExceptionFilter.Respond | src/common/filters/http-exception.filter.ts:31-106 | an HTTP exception keeps its status and gets the message `HttpMessage` extracts from its response; any other value that is not a PostgreSQL error gets 500; a non-`Error` gets 500 with the default message |
| ExceptionFilter.HttpExceptionFilter.constructor | src/common/filters/http-exception.filter.ts:29 | the field holds the singleton, created without a configuration if it did not exist |
| ExceptionFilter.HttpExceptionFilter.Catch | src/common/filters/http-exception.filter.ts:31-106 | the reply is the reference reply `Respond`, and asking for the sanitizer again leaves the field and the singleton unchanged |
| ExceptionFilter.DatabaseExceptionTakesHttpBranch | src/common/filters/http-exception.filter.ts:47-71 | a `DatabaseException` is answered by the `HttpException` branch with 500 and its message |
| ExceptionFilter.EmptyMessageListGivesNoMessage | src/common/filters/http-exception.filter.ts:58-59 | an empty `message` list gives a reply without a message |
| ExceptionFilter.StatusTablesAgree | src/common/filters/http-exception.filter.ts:125-137 | for every code, the filter's status equals the status of the translator's exception class |
| ExceptionFilter.MessageTablesAgree | src/common/filters/http-exception.filter.ts:143-160 | for the five named codes, the filter's message is the translator's message for the entity `registro` |
| ExceptionFilter.UniqueViolationNamesEntity | src/common/utils/database-error.util.ts:73-75 | two unique-violation messages with the same phrase are equal only when they name the same entity |
| ExceptionFilter.UniqueViolationMessagesDiffer | src/common/filters/http-exception.filter.ts:145-149 | for a unique violation, the filter's message differs from the translator's whenever the entity is not `registro` |
| ExceptionFilter.UnknownCodeMessagesDiffer | src/common/filters/http-exception.filter.ts:161-162 | for any other code, the filter says `Error de base de datos`, which the translator never says |
| ExceptionFilter.TranslateThenFilterKeepsStatus | src/common/filters/http-exception.filter.ts:73-82 | translating a PostgreSQL error first does not change the status the client gets |
| ExceptionFilter.TranslatedReachesClient | src/common/filters/http-exception.filter.ts:47-61 | a translated exception reaches the client with its status and message |
| ExceptionFilter.GenericErrorReply | src/common/filters/http-exception.filter.ts:84-95 | a generic `Error` gets 500; its message is the default when detailed errors are off and the trimmed message otherwise |
| ExceptionFilter.NoLeakWhenSanitizing | src/common/filters/http-exception.filter.ts:73-101 | when active, a value that is not an HTTP exception is answered with an approved message |
| ExceptionFilter.CatchWithRequestConfig | src/common/filters/http-exception.filter.ts:37-41 | a request's own configuration does not change the sanitizer in use |
| ExceptionFilter.BootstrapFixesDevelopmentMode | src/main.ts:34 | a filter built at bootstrap fixes the singleton without a configuration: it never sanitizes, and a generic `Error` reaches the client with its trimmed message, whatever configuration a request presents |
| Pagination.ParseInt | src/common/dto/pagination.dto.ts:12 | `parseInt` is NaN iff no digit follows the white space and sign; otherwise the sign decides the sign of the result |
| Pagination.DigitsOfDecimal | src/common/dto/pagination.dto.ts:12 | reading the decimal numeral of `n` gives `n` |
| Text.TrimStartSpaces | src/common/dto/pagination.dto.ts:12 | leading white space in front of a non-space character is skipped entirely |
| Pagination.SignedNumeralStart | src/common/dto/pagination.dto.ts:12 | after white space and an optional sign, the numeral starts at the first digit; the result is negative iff the sign is `-` |
| Pagination.ParseNumeral | src/common/dto/pagination.dto.ts:12 | once the numeral starts with a run of digits followed by a non-digit, that run is the magnitude read, signed as the input's sign says |
| Pagination.ParseSignedDigits | src/common/dto/pagination.dto.ts:12 | white space, an optional `+` or `-`, a run of digits (leading zeros allowed) and anything not starting with a digit read as the signed value of the digits |
| Pagination.ParseNumeralPrefix | src/common/dto/pagination.dto.ts:12 | a numeral followed by a non-digit is read up to the non-digit |
| Pagination.ParseDecimal | src/common/dto/pagination.dto.ts:12 | a numeral is read back as its number |
| Pagination.ParseNegative | src/common/dto/pagination.dto.ts:12 | a minus sign before a numeral negates it |
| Pagination.Transform | src/common/dto/pagination.dto.ts:10-14 | a missing or empty string gives the default, a NaN parse gives the default, and otherwise the parsed number |
| Pagination.ParsePaginationQuery | src/common/dto/pagination.dto.ts:6-25 | the query is accepted iff page ≥ 1 and 1 ≤ limit ≤ 100 after the transforms; it then holds exactly those values; a failure names `page` iff the page check failed |
| Pagination.DefaultsWhenMissing | src/common/dto/pagination.dto.ts:11 | missing or empty fields give page 1 and limit 10 |
| Pagination.NumeralsAcceptedIffInRange | src/common/dto/pagination.dto.ts:15-24 | numerals are accepted iff they are in range; page 0 fails on page; limit 0 or above 100 fails on limit |
| Pagination.NegativePageRejected | src/common/dto/pagination.dto.ts:15 | a negative page is rejected, not clamped |
| Pagination.NotANumberGivesDefault | src/common/dto/pagination.dto.ts:13 | text that is not a number gives the default |
| Pagination.PageThreeAbc | src/common/dto/pagination.dto.ts:12 | page `3abc` is read as 3 |
| Pagination.LimitTwoPointNine | src/common/dto/pagination.dto.ts:21 | limit `2.9` is read as 2 |
| Pagination.TrailingTextIgnored | src/common/dto/pagination.dto.ts:10-23 | `page=3abc&limit=2.9` is accepted as page 3 and limit 2 |
| Pagination.PageZeroRejected | src/common/dto/pagination.dto.ts:15 | page `0` is rejected |
| Pagination.ParseFiveHundred | src/common/dto/pagination.dto.ts:21 | `500` is read as 500 |
| Pagination.LimitFiveHundredRejected | src/common/dto/pagination.dto.ts:24 | limit `500` is rejected, not clamped |
| Pagination.ValidatePaginationQuery | src/common/pipes/zod-validation.pipe.ts:10-23 | the pipe returns the parsed query iff the schema accepts it; otherwise it throws a bad request with a non-empty message |
| UsersController.PageOf | src/modules/users/users.controller.ts:53 | `query.page ?? 1`: a present page is kept, a missing one is 1 |
| UsersController.LimitOf | src/modules/users/users.controller.ts:54 | `query.limit ?? 10`: a present limit is kept, a missing one is 10 |
| UsersController.FindAll | src/modules/users/users.controller.ts:51-56 | the handler body: `activeOnly` is set iff the text is exactly `true`; for a valid page and limit the offset is non-negative, a multiple of the limit, and skips exactly `page - 1` pages |
| UsersController.PageWindow | src/modules/users/users.controller.ts:55 | `k * limit` rows are exactly `k` whole pages |
| UsersController.OffsetIsWholePages | src/modules/users/users.controller.ts:55 | for a valid page and limit, `(page - 1) * limit` is non-negative and `page - 1` whole pages |
| UsersController.ConsecutivePagesAdjacent | src/modules/users/users.controller.ts:55 | page `p + 1` starts exactly where page `p` ends |
| UsersController.DefaultWindow | src/modules/users/users.controller.ts:53-55 | without page and limit, the window is offset 0 and limit 10 |
| UsersController.SecondPageOfFive | src/modules/users/users.controller.ts:55 | page 2 with limit 5 starts at offset 5 |
| UsersController.ValidatedQueryGivesWindow | src/modules/users/users.controller.ts:46-55 | a query the schema accepted gives a limit of 1 to 100 and a non-negative offset that is a multiple of it |
| UsersController.PaginationPipe | src/common/pipes/zod-validation.pipe.ts:10-23 | the pagination pipe checks a query object against the schema and refuses any single query value as a bad request |
| UsersController.EndpointAlwaysRejects | src/modules/users/users.controller.ts:45-50 | as declared, every request to the route is refused as a bad request before the handler body runs |
| UsersController.FindAllEndpointQueryPipe | src/modules/users/users.controller.ts:45-57 | with the pipe on `query` alone, a request is served iff the schema accepts its query, and then gets the handler body's window of 1 to 100 rows at a whole number of pages; otherwise it is a bad request |
| UsersController.QueryPipeServesDefaults | src/modules/users/users.controller.ts:53-56 | with the pipe on `query` alone, a request without a query string gets offset 0 and limit 10 |
| RolesGuard.AnyRoleMatches | src/modules/auth/guards/roles.guard.ts:38 | some required role equals the code iff the code is in the list |
| RolesGuard.CanActivate | src/modules/auth/guards/roles.guard.ts:14-47 | the guard never returns false, and every refusal is a `ForbiddenException` |
| RolesGuard.AllowedIffRoleListed | src/modules/auth/guards/roles.guard.ts:14-47 | access is allowed iff no roles are required, or the user's non-empty role code equals one of them |
| RolesGuard.MissingUserFirst | src/modules/auth/guards/roles.guard.ts:28-30 | a missing user is refused as unauthenticated, before any role check |
| RolesGuard.MissingRoleCode | src/modules/auth/guards/roles.guard.ts:34-36 | a missing or empty role code is refused as having no role |
| RolesGuard.EmptyRoleListDeniesAll | src/modules/auth/guards/roles.guard.ts:38-44 | an empty list of required roles refuses every user |
| RolesGuard.UnlistedRoleRefused | src/modules/auth/guards/roles.guard.ts:40-44 | an unlisted role code is refused with the permission message |
| RolesGuard.RefusalReply | src/modules/auth/guards/roles.guard.ts:28-44 | a refusal reaches the client as 403 with one of the three guard messages |

## Left out

- ErrorSanitizer.SourceLocationLength, ErrorSanitizer.PathMatchLength and ErrorSanitizer.FrameMatchLength: each contract states only that a match stays within the text (and `PathMatchNoSpace` that a path match holds no white space). What each scanner matches is fixed by its body and pinned down on concrete messages by the `SanitizerExamples` lemmas.
- Regular expressions are modelled by these hand-written scanners, not by a general engine. The path scanner argues the backtracking of `[^\s]+` explicitly. For the frame pattern, backtracking cannot help.
- `toLowerCase` is modelled on ASCII letters only. Table lookups do not model JavaScript's prototype chain: a name such as `constructor` finds no entry in the model.
- `parseInt` is modelled on unbounded integers. The loss of precision above 2^53 and the rounding of very long numerals are not modelled. A numeral of more than about 309 digits becomes `Infinity` in JavaScript, which `.int()` rejects; `ParsePaginationQuery` accepts it when it is a positive page.
- A query key given more than once arrives as an array, which `z.string()` rejects. The model takes each query value as a single string, so this case is not modelled.
- A `code`, `constraint` or `column` property that is not a string is not modelled. Neither is a `message` field in an exception response that is neither a string nor a list. `detail` and `table` are never read by the layer and are left out.
- Thrown `null` and `undefined` are not modelled. Reading `.code` on them raises a JavaScript `TypeError`, not an HTTP exception.
- `request.app?.get?.(ConfigService)` and `configService.get` are modelled as an optional map from keys to strings.
- Logging (`logger.error`), the i18n translation of validation issues (the pipe takes the issue text as a parameter), the Express response object and `async`/`await` are not modelled.
- The order in which the framework runs pipes on a route's parameters is modelled as parameter order; the global `ValidationPipe` of src/main.ts is left out, because it checks only class-typed parameters and `findAll` has none.
- `PaginatedResponse` (src/common/dto/pagination.dto.ts, lines 35-40) is the shape the users service returns; the service is not part of this model, so neither is that shape.
- Strings are sequences of characters. How characters outside the Basic Multilingual Plane split into UTF-16 code units is not modelled.
- The repositories, services, database schema, the rest of the bootstrap code, other controllers and decorators are not part of this model.

## Findings

| source | as written | input that shows it | evidently intended | confidence | as-written member | corrected member |
|---|---|---|---|---|---|---|
| src/modules/users/users.controller.ts:46-49 | the method-level `@UsePipes(new ZodValidationPipe(paginationQuerySchema))` runs the object schema on every parameter, `activeOnly` included, and `z.object` refuses `undefined` and strings | `GET /v1/users` with no query string, or with `?page=1`: the pipe on `activeOnly` throws a bad request, so the handler body never runs | the pipe on the `query` parameter alone, so that an accepted query reaches the handler body | medium; not executed | UsersController.EndpointAlwaysRejects | UsersController.FindAllEndpointQueryPipe |
