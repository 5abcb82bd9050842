/** The database-error translator (src/common/utils/database-error.util.ts):
    `handleDatabaseError` turns whatever a database call threw into exactly
    one HTTP exception, choosing the class from the PostgreSQL SQLSTATE code
    (Appendix A of the PostgreSQL documentation) and the message from the
    sanitizer; `executeWithErrorHandling` runs an operation under it. */
module DatabaseError {
  import opened Wrappers
  import opened Text
  import opened Exceptions
  import opened ErrorSanitizer

  // `PostgresErrorCode`: class 23 (integrity constraint violation) and
  // class 22 (data exception).
  const UNIQUE_VIOLATION := "23505"
  const FOREIGN_KEY_VIOLATION := "23503"
  const NOT_NULL_VIOLATION := "23502"
  const CHECK_VIOLATION := "23514"
  const INVALID_TEXT_REPRESENTATION := "22P02"

  const INVALID_REFERENCE := "Referencia inválida: el registro relacionado no existe"
  const CHECK_FAILED := "Los datos proporcionados no cumplen con las restricciones de validación"
  const INVALID_FORMAT := "Formato de datos inválido en la petición"
  const CONNECTION_FAILED := "Error de conexión con la base de datos"

  /** `context ? ` ${context}` : ''`: the entity label with its leading space. */
  function EntityName(context: Option<string>): (entity: string)
    ensures !Truthy(context) ==> entity == ""
    ensures Truthy(context) ==> |entity| == |context.value| + 1 && entity[0] == ' ' && entity[1..] == context.value
  {
    if Truthy(context) then " " + context.value else ""
  }

  function UniqueViolationMessage(entity: string, phrase: string): string {
    "Ya existe un" + entity + " con este " + phrase
  }

  function NotNullMessage(phrase: string): string {
    "El campo '" + phrase + "' es requerido y no puede ser nulo"
  }

  function UnknownCodeMessage(entity: string): string {
    "Error de base de datos al procesar" + entity
  }

  function UnexpectedMessage(entity: string): string {
    "Error inesperado al procesar" + entity
  }

  function UnknownValueMessage(entity: string): string {
    "Error desconocido al procesar" + entity
  }

  /** The four exception classes the translator ever throws. */
  predicate IsTranslatedClass(cls: HttpClass) {
    cls == BadRequest || cls == Conflict || cls == NotFound || cls == InternalServerError
  }

  /** The values `handleDatabaseError` rethrows unchanged: instances of
      `BadRequestException`, `ConflictException`, `NotFoundException` and
      `InternalServerErrorException`. */
  predicate IsPassedThrough(t: Thrown) {
    t.Http? && IsTranslatedClass(t.cls)
  }

  /** `instanceof` on the four classes: exactly those four pass through, and
      no other exception, `Error` or value does (`ForbiddenException` and
      `DatabaseException` among them). */
  lemma PassedThroughClasses(cls: HttpClass, response: ExceptionResponse, message: string, fields: PgFields)
    ensures IsPassedThrough(Http(cls, response, message, fields)) <==> cls in {BadRequest, Conflict, NotFound, InternalServerError}
    ensures !IsPassedThrough(Error(message, fields)) && !IsPassedThrough(NonError(fields))
  {
  }

  /** The exception thrown for a value that carries a non-empty `code`. */
  function TranslateCode(code: string, fields: PgFields, entity: string, s: Sanitizer): (r: Thrown)
    ensures r.Http? && r.response == Body(Some(Text(r.message))) && r.fields == NoPgFields
    ensures r.cls == Conflict <==> code == UNIQUE_VIOLATION
    ensures r.cls == BadRequest <==>
              code in {FOREIGN_KEY_VIOLATION, NOT_NULL_VIOLATION, CHECK_VIOLATION, INVALID_TEXT_REPRESENTATION}
    ensures r.cls == InternalServerError <==>
              code !in {UNIQUE_VIOLATION, FOREIGN_KEY_VIOLATION, NOT_NULL_VIOLATION, CHECK_VIOLATION, INVALID_TEXT_REPRESENTATION}
  {
    if code == UNIQUE_VIOLATION then
      NewHttpException(Conflict, UniqueViolationMessage(entity, SanitizeConstraint(s, fields.constraint)))
    else if code == FOREIGN_KEY_VIOLATION then
      NewHttpException(BadRequest, INVALID_REFERENCE)
    else if code == NOT_NULL_VIOLATION then
      NewHttpException(BadRequest, NotNullMessage(SanitizeColumn(s, fields.column)))
    else if code == CHECK_VIOLATION then
      NewHttpException(BadRequest, CHECK_FAILED)
    else if code == INVALID_TEXT_REPRESENTATION then
      NewHttpException(BadRequest, INVALID_FORMAT)
    else
      NewHttpException(InternalServerError, UnknownCodeMessage(entity))
  }

  /** The exception thrown for an `Error` without a code. */
  function TranslateError(message: string, entity: string, s: Sanitizer): (r: Thrown)
    ensures r.Http? && r.cls == InternalServerError
    ensures r.response == Body(Some(Text(r.message))) && r.fields == NoPgFields
    ensures !ShouldShowDetailedErrors(s) ==> r.message in {CONNECTION_FAILED, UnexpectedMessage(entity)}
  {
    if Contains(message, "connection") || Contains(message, "timeout") then
      NewHttpException(InternalServerError, CONNECTION_FAILED)
    else
      var sanitized := SanitizeErrorMessage(s, message);
      if ShouldShowDetailedErrors(s) then
        NewHttpException(InternalServerError, UnexpectedMessage(entity) + ": " + sanitized)
      else
        NewHttpException(InternalServerError, UnexpectedMessage(entity))
  }

  /** `handleDatabaseError(error, context)` with `s` the sanitizer that
      `getErrorSanitizer` hands back: the one exception it throws. */
  function HandleDatabaseError(error: Thrown, context: Option<string>, s: Sanitizer): (r: Thrown)
    ensures IsPassedThrough(r)
    ensures IsPassedThrough(error) ==> r == error
    ensures !IsPassedThrough(error) ==> r.response == Body(Some(Text(r.message))) && r.fields == NoPgFields
  {
    var entity := EntityName(context);
    if IsPassedThrough(error) then error
    else if Truthy(error.fields.code) then TranslateCode(error.fields.code.value, error.fields, entity, s)
    else if IsErrorInstance(error) then TranslateError(error.message, entity, s)
    else NewHttpException(InternalServerError, UnknownValueMessage(entity))
  }

  /** The status codes of the translated exceptions: 400, 404, 409 or 500
      (sections 15.5.1, 15.5.5, 15.5.10 and 15.6.1 of RFC 9110). */
  lemma TranslatedStatus(error: Thrown, context: Option<string>, s: Sanitizer)
    ensures StatusOf(HandleDatabaseError(error, context, s).cls) in {BAD_REQUEST, NOT_FOUND, CONFLICT, INTERNAL_SERVER_ERROR}
  {
  }

  /** Translating an already translated exception changes nothing. */
  lemma HandleIdempotent(error: Thrown, context: Option<string>, s: Sanitizer)
    ensures HandleDatabaseError(HandleDatabaseError(error, context, s), context, s) == HandleDatabaseError(error, context, s)
  {
  }

  /** Only the four listed classes pass through: any other HTTP exception
      without a code, `ForbiddenException` and `DatabaseException` among
      them, becomes an internal server error. */
  lemma NoPassthroughForOtherClasses(error: Thrown, context: Option<string>, s: Sanitizer)
    requires error.Http? && !IsTranslatedClass(error.cls) && !Truthy(error.fields.code)
    ensures HandleDatabaseError(error, context, s).cls == InternalServerError
    ensures HandleDatabaseError(error, context, s) != error
  {
  }

  /** Unique violation: a conflict naming the entity and the sanitized constraint. */
  lemma UniqueViolationIsConflict(error: Thrown, context: Option<string>, s: Sanitizer)
    requires !IsPassedThrough(error) && error.fields.code == Some(UNIQUE_VIOLATION)
    ensures HandleDatabaseError(error, context, s) ==
              NewHttpException(Conflict, UniqueViolationMessage(EntityName(context), SanitizeConstraint(s, error.fields.constraint)))
  {
  }

  /** Foreign-key violation: a bad request whose message ignores the context. */
  lemma ForeignKeyIgnoresContext(error: Thrown, c1: Option<string>, c2: Option<string>, s: Sanitizer)
    requires !IsPassedThrough(error) && error.fields.code == Some(FOREIGN_KEY_VIOLATION)
    ensures HandleDatabaseError(error, c1, s) == HandleDatabaseError(error, c2, s) == NewHttpException(BadRequest, INVALID_REFERENCE)
  {
  }

  /** Not-null violation: a bad request naming the sanitized column; the
      other two recognised codes give bad requests with fixed messages. */
  lemma OtherRecognisedCodesAreBadRequests(error: Thrown, context: Option<string>, s: Sanitizer)
    requires !IsPassedThrough(error) && error.fields.code.Some?
    ensures error.fields.code.value == NOT_NULL_VIOLATION ==>
              HandleDatabaseError(error, context, s) == NewHttpException(BadRequest, NotNullMessage(SanitizeColumn(s, error.fields.column)))
    ensures error.fields.code.value == CHECK_VIOLATION ==>
              HandleDatabaseError(error, context, s) == NewHttpException(BadRequest, CHECK_FAILED)
    ensures error.fields.code.value == INVALID_TEXT_REPRESENTATION ==>
              HandleDatabaseError(error, context, s) == NewHttpException(BadRequest, INVALID_FORMAT)
  {
  }

  /** An unrecognised non-empty code is an internal server error naming the entity. */
  lemma UnknownCodeIsInternal(error: Thrown, context: Option<string>, s: Sanitizer)
    requires !IsPassedThrough(error) && Truthy(error.fields.code)
    requires error.fields.code.value !in {UNIQUE_VIOLATION, FOREIGN_KEY_VIOLATION, NOT_NULL_VIOLATION, CHECK_VIOLATION, INVALID_TEXT_REPRESENTATION}
    ensures HandleDatabaseError(error, context, s) == NewHttpException(InternalServerError, UnknownCodeMessage(EntityName(context)))
  {
  }

  /** A connection problem is recognised by a case-sensitive substring test
      on the raw message, before any sanitizing, in every mode. */
  lemma ConnectionProblem(message: string, fields: PgFields, context: Option<string>, s: Sanitizer)
    requires !Truthy(fields.code)
    requires Contains(message, "connection") || Contains(message, "timeout")
    ensures HandleDatabaseError(Error(message, fields), context, s) == NewHttpException(InternalServerError, CONNECTION_FAILED)
  {
  }

  /** Any other error without a code: the sanitized message is appended
      exactly when detailed errors are shown. */
  lemma UnexpectedError(message: string, fields: PgFields, context: Option<string>, s: Sanitizer)
    requires !Truthy(fields.code)
    requires !Contains(message, "connection") && !Contains(message, "timeout")
    ensures var r := HandleDatabaseError(Error(message, fields), context, s);
      r.cls == InternalServerError &&
      r.message == if ShouldShowDetailedErrors(s) then UnexpectedMessage(EntityName(context)) + ": " + SanitizeErrorMessage(s, message)
                   else UnexpectedMessage(EntityName(context))
  {
  }

  /** A thrown value that is not an `Error` and has no code. */
  lemma UnknownValue(fields: PgFields, context: Option<string>, s: Sanitizer)
    requires !Truthy(fields.code)
    ensures HandleDatabaseError(NonError(fields), context, s) == NewHttpException(InternalServerError, UnknownValueMessage(EntityName(context)))
  {
  }

  /** Every message the translator writes itself when sanitization is on:
      a fixed text, a text naming the entity, or a text around an approved
      phrase. */
  function ApprovedMessages(context: Option<string>): set<string> {
    var entity := EntityName(context);
    {INVALID_REFERENCE, CHECK_FAILED, INVALID_FORMAT, CONNECTION_FAILED,
     UnknownCodeMessage(entity), UnexpectedMessage(entity), UnknownValueMessage(entity)}
    + (set p | p in ConstraintPhrases :: UniqueViolationMessage(entity, p))
    + (set p | p in ColumnPhrases :: NotNullMessage(p))
  }

  /** With sanitization on, no constraint name, column name or driver
      message reaches the client: every message the translator writes is
      an approved one. */
  lemma NoLeakWhenSanitizing(error: Thrown, context: Option<string>, s: Sanitizer)
    requires Active(s) && !IsPassedThrough(error)
    ensures HandleDatabaseError(error, context, s).message in ApprovedMessages(context)
  {
    var entity := EntityName(context);
    var r := HandleDatabaseError(error, context, s);
    if Truthy(error.fields.code) && error.fields.code.value == UNIQUE_VIOLATION {
      var p := SanitizeConstraint(s, error.fields.constraint);
      assert r.message == UniqueViolationMessage(entity, p);
    } else if Truthy(error.fields.code) && error.fields.code.value == NOT_NULL_VIOLATION {
      var p := SanitizeColumn(s, error.fields.column);
      assert r.message == NotNullMessage(p);
    }
  }

  /** `executeWithErrorHandling(operation, context)`: the operation's result
      when it returns, the translation of what it threw otherwise. */
  function ExecuteWithErrorHandling<T>(outcome: Outcome<T>, context: Option<string>, s: Sanitizer): (r: Outcome<T>)
    ensures outcome.Returned? ==> r == outcome
    ensures outcome.Threw? ==> r.Threw? && IsPassedThrough(r.exception)
  {
    match outcome
    case Returned(_) => outcome
    case Threw(e) => Threw(HandleDatabaseError(e, context, s))
  }

  /** Wrapping an operation twice is wrapping it once. */
  lemma ExecuteIdempotent<T>(outcome: Outcome<T>, context: Option<string>, s: Sanitizer)
    ensures ExecuteWithErrorHandling(ExecuteWithErrorHandling(outcome, context, s), context, s) ==
            ExecuteWithErrorHandling(outcome, context, s)
  {
    if outcome.Threw? {
      HandleIdempotent(outcome.exception, context, s);
    }
  }

  /** `handleDatabaseError(error, context, configService)` including its
      call to `getErrorSanitizer(configService)`. */
  method HandleDatabaseErrorWith(registry: SanitizerRegistry, error: Thrown, context: Option<string>, config: Option<Config>)
    returns (r: Thrown)
    modifies registry
    ensures registry.instance.Some?
    ensures old(registry.instance).Some? ==> registry.instance == old(registry.instance)
    ensures old(registry.instance).None? ==> registry.instance == Some(NewSanitizer(config))
    ensures r == HandleDatabaseError(error, context, registry.instance.value)
  {
    var s := registry.GetErrorSanitizer(config);
    r := HandleDatabaseError(error, context, s);
  }

  /** `executeWithErrorHandling` reaches the sanitizer through
      `handleDatabaseError` without a configuration, and only when the
      operation threw. */
  method ExecuteWith<T>(registry: SanitizerRegistry, outcome: Outcome<T>, context: Option<string>)
    returns (r: Outcome<T>)
    modifies registry
    ensures outcome.Returned? ==> r == outcome && registry.instance == old(registry.instance)
    ensures outcome.Threw? && old(registry.instance).Some? ==> registry.instance == old(registry.instance)
    ensures outcome.Threw? && old(registry.instance).None? ==> registry.instance == Some(NewSanitizer(None))
    ensures outcome.Threw? ==> registry.instance.Some? && r == ExecuteWithErrorHandling(outcome, context, registry.instance.value)
  {
    match outcome
    case Returned(_) =>
      r := outcome;
    case Threw(e) =>
      var t := HandleDatabaseErrorWith(registry, e, context, None);
      r := Threw(t);
  }

  /** When the first sanitizer is requested by a failing wrapped operation,
      it is built without a configuration and so never sanitizes; a
      production configuration presented later is ignored. */
  method FirstFailureFixesDevelopmentMode<T>(registry: SanitizerRegistry, e: Thrown, production: Config)
    returns (later: Sanitizer)
    requires registry.instance == None
    modifies registry
    ensures !Active(later) && ShouldShowDetailedErrors(later)
  {
    var _ := ExecuteWith<T>(registry, Threw(e), None);
    later := registry.GetErrorSanitizer(Some(production));
  }
}
