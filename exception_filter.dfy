/** The global exception filter (src/common/filters/http-exception.filter.ts):
    an ordered, first-match dispatch from any thrown value to the reply
    `status(s).json({ message })`, with its own table from PostgreSQL codes
    to statuses and messages. */
module ExceptionFilter {
  import opened Wrappers
  import opened Text
  import opened Exceptions
  import opened ErrorSanitizer
  import opened DatabaseError

  const INTERNAL_ERROR_MESSAGE := "Error interno del servidor"
  const DATABASE_ERROR_MESSAGE := "Error de base de datos"

  /** The reply: a status and the `message` entry of the JSON body; `None`
      is a `message` that is `undefined` and so absent from the body. */
  datatype Reply = Reply(status: int, message: Option<string>)

  /** `isPostgresError(error)`: an `Error` whose non-empty code belongs to
      class 23 or class 22. */
  predicate IsPostgresError(t: Thrown) {
    IsErrorInstance(t) && Truthy(t.fields.code) && ("23" <= t.fields.code.value || "22" <= t.fields.code.value)
  }

  /** The five named codes make an `Error` a PostgreSQL error; a value that
      is not an `Error` never is one, whatever its code. */
  lemma PostgresErrorCodes(message: string, fields: PgFields)
    ensures fields.code.Some? && fields.code.value in {UNIQUE_VIOLATION, FOREIGN_KEY_VIOLATION, NOT_NULL_VIOLATION, CHECK_VIOLATION, INVALID_TEXT_REPRESENTATION} ==>
              IsPostgresError(Error(message, fields))
    ensures !IsPostgresError(NonError(fields))
    ensures IsPostgresError(Error(message, fields)) ==> |fields.code.value| >= 2 && fields.code.value[..2] in {"22", "23"}
  {
    if IsPostgresError(Error(message, fields)) {
      var code := fields.code.value;
      assert code[..2] == "23" || code[..2] == "22";
    }
  }

  /** `getHttpStatusFromPostgresError(error)`. */
  function GetHttpStatusFromPostgresError(code: string): (status: int)
    ensures status in {BAD_REQUEST, CONFLICT, INTERNAL_SERVER_ERROR}
    ensures status == CONFLICT <==> code == UNIQUE_VIOLATION
  {
    if code == UNIQUE_VIOLATION then CONFLICT
    else if code in {FOREIGN_KEY_VIOLATION, NOT_NULL_VIOLATION, CHECK_VIOLATION, INVALID_TEXT_REPRESENTATION} then BAD_REQUEST
    else INTERNAL_SERVER_ERROR
  }

  /** `getMessageFromPostgresError(error)` with the filter's sanitizer. */
  function GetMessageFromPostgresError(code: string, fields: PgFields, s: Sanitizer): (message: string)
    ensures Active(s) ==> message in FilterApprovedMessages()
  {
    if code == UNIQUE_VIOLATION then
      var phrase := SanitizeConstraint(s, fields.constraint);
      assert Active(s) ==> UniqueViolationMessage(" registro", phrase) in FilterApprovedMessages();
      UniqueViolationMessage(" registro", phrase)
    else if code == FOREIGN_KEY_VIOLATION then INVALID_REFERENCE
    else if code == NOT_NULL_VIOLATION then
      var phrase := SanitizeColumn(s, fields.column);
      assert Active(s) ==> NotNullMessage(phrase) in FilterApprovedMessages();
      NotNullMessage(phrase)
    else if code == CHECK_VIOLATION then CHECK_FAILED
    else if code == INVALID_TEXT_REPRESENTATION then INVALID_FORMAT
    else DATABASE_ERROR_MESSAGE
  }

  /** Every message the filter writes itself when sanitization is on. */
  function FilterApprovedMessages(): set<string> {
    {INTERNAL_ERROR_MESSAGE, DATABASE_ERROR_MESSAGE, INVALID_REFERENCE, CHECK_FAILED, INVALID_FORMAT}
    + (set p | p in ConstraintPhrases :: UniqueViolationMessage(" registro", p))
    + (set p | p in ColumnPhrases :: NotNullMessage(p))
  }

  /** The message of an `HttpException` reply: a string response itself,
      else the response object's `message` (the first element of a list),
      else the default. */
  function HttpMessage(response: ExceptionResponse): (message: Option<string>)
    ensures response.Plain? ==> message == Some(response.text)
    ensures response == Body(None) ==> message == Some(INTERNAL_ERROR_MESSAGE)
    ensures response.Body? && response.message.Some? && response.message.value.Text? ==>
              message == Some(response.message.value.text)
    ensures response.Body? && response.message.Some? && response.message.value.List? && response.message.value.items != [] ==>
              message == Some(response.message.value.items[0])
    ensures message.None? <==> response == Body(Some(List([])))
  {
    match response
    case Plain(text) => Some(text)
    case Body(None) => Some(INTERNAL_ERROR_MESSAGE)
    case Body(Some(Text(text))) => Some(text)
    case Body(Some(List(items))) => if items == [] then None else Some(items[0])
  }

  /** What `catch` sends for `exception` once its sanitizer is `s`. */
  function Respond(exception: Thrown, s: Sanitizer): (r: Reply)
    ensures exception.Http? ==> r.status == StatusOf(exception.cls) && r.message == HttpMessage(exception.response)
    ensures !exception.Http? && !IsPostgresError(exception) ==> r.status == INTERNAL_SERVER_ERROR
    ensures !IsErrorInstance(exception) ==> r == Reply(INTERNAL_SERVER_ERROR, Some(INTERNAL_ERROR_MESSAGE))
  {
    if exception.Http? then
      Reply(StatusOf(exception.cls), HttpMessage(exception.response))
    else if IsPostgresError(exception) then
      var code := exception.fields.code.value;
      Reply(GetHttpStatusFromPostgresError(code), Some(GetMessageFromPostgresError(code, exception.fields, s)))
    else if exception.Error? then
      if !ShouldShowDetailedErrors(s) then Reply(INTERNAL_SERVER_ERROR, Some(INTERNAL_ERROR_MESSAGE))
      else Reply(INTERNAL_SERVER_ERROR, Some(SanitizeErrorMessage(s, exception.message)))
    else
      Reply(INTERNAL_SERVER_ERROR, Some(INTERNAL_ERROR_MESSAGE))
  }

  /** The filter instance, with the sanitizer it keeps in a field. */
  class HttpExceptionFilter {
    var sanitizer: Sanitizer
    const registry: SanitizerRegistry

    /** The field holds the registry's instance. */
    predicate Valid()
      reads this, registry
    {
      registry.instance == Some(sanitizer)
    }

    /** Field initialiser `sanitizer = getErrorSanitizer()`. */
    constructor(registry: SanitizerRegistry)
      modifies registry
      ensures this.registry == registry && Valid()
      ensures old(registry.instance).Some? ==> sanitizer == old(registry.instance).value
      ensures old(registry.instance).None? ==> sanitizer == NewSanitizer(None)
    {
      this.registry := registry;
      var s := registry.GetErrorSanitizer(None);
      sanitizer := s;
    }

    /** `catch(exception, host)`; `requestConfig` is the configuration
        service the request's application provides, if any. Asking the
        registry again hands back the cached instance, so the field does
        not change. */
    method Catch(exception: Thrown, requestConfig: Option<Config>) returns (status: int, message: Option<string>)
      requires Valid()
      modifies this, registry
      ensures Valid() && sanitizer == old(sanitizer) && registry.instance == old(registry.instance)
      ensures Reply(status, message) == Respond(exception, sanitizer)
    {
      if requestConfig.Some? {
        sanitizer := registry.GetErrorSanitizer(requestConfig);
      }

      status := INTERNAL_SERVER_ERROR;
      message := Some(INTERNAL_ERROR_MESSAGE);

      if exception.Http? {
        status := StatusOf(exception.cls);
        match exception.response {
          case Plain(text) =>
            message := Some(text);
          case Body(Some(msg)) =>
            if msg.List? {
              message := if msg.items == [] then None else Some(msg.items[0]);
            } else {
              message := Some(msg.text);
            }
          case Body(None) =>
        }
      } else if IsDatabaseException(exception) {
        // `DatabaseException` is an `HttpException`: the first branch took it.
        assert false;
      } else if IsPostgresError(exception) {
        var code := exception.fields.code.value;
        status := GetHttpStatusFromPostgresError(code);
        message := Some(GetMessageFromPostgresError(code, exception.fields, sanitizer));
      } else if exception.Error? {
        message := Some(SanitizeErrorMessage(sanitizer, exception.message));
        if !ShouldShowDetailedErrors(sanitizer) && status == INTERNAL_SERVER_ERROR {
          message := Some(INTERNAL_ERROR_MESSAGE);
        }
      }
    }
  }

  /** A `DatabaseException` is answered by the `HttpException` branch: its
      own status 500 and its message. */
  lemma DatabaseExceptionTakesHttpBranch(message: string, code: Option<string>, constraint: Option<string>, s: Sanitizer)
    ensures Respond(NewDatabaseException(message, code, constraint), s) == Reply(INTERNAL_SERVER_ERROR, Some(message))
  {
  }

  /** A list of messages with no element gives a reply without a message. */
  lemma EmptyMessageListGivesNoMessage(cls: HttpClass, fields: PgFields, s: Sanitizer)
    ensures Respond(Http(cls, Body(Some(List([]))), "", fields), s).message == None
  {
  }

  /** For every code the filter's status agrees with the status of the
      exception class the translator picks. */
  lemma StatusTablesAgree(code: string, fields: PgFields, entity: string, s: Sanitizer)
    ensures GetHttpStatusFromPostgresError(code) == StatusOf(TranslateCode(code, fields, entity, s).cls)
  {
  }

  /** For the five named codes the filter's message is the translator's
      message for the entity `registro`. */
  lemma MessageTablesAgree(code: string, fields: PgFields, s: Sanitizer)
    requires code in {UNIQUE_VIOLATION, FOREIGN_KEY_VIOLATION, NOT_NULL_VIOLATION, CHECK_VIOLATION, INVALID_TEXT_REPRESENTATION}
    ensures GetMessageFromPostgresError(code, fields, s) == TranslateCode(code, fields, EntityName(Some("registro")), s).message
  {
  }

  /** Any other code: the filter's message is the generic database message,
      which is not the translator's. */
  lemma UnknownCodeMessagesDiffer(code: string, fields: PgFields, entity: string, s: Sanitizer)
    requires code !in {UNIQUE_VIOLATION, FOREIGN_KEY_VIOLATION, NOT_NULL_VIOLATION, CHECK_VIOLATION, INVALID_TEXT_REPRESENTATION}
    ensures GetMessageFromPostgresError(code, fields, s) == DATABASE_ERROR_MESSAGE
    ensures GetMessageFromPostgresError(code, fields, s) != TranslateCode(code, fields, entity, s).message
  {
    var m := TranslateCode(code, fields, entity, s).message;
    assert m == UnknownCodeMessage(entity);
    assert |m| > |DATABASE_ERROR_MESSAGE|;
  }

  /** The unique-violation text names the entity, so two texts around the
      same phrase are equal only for the same entity. */
  lemma UniqueViolationNamesEntity(e1: string, e2: string, phrase: string)
    requires UniqueViolationMessage(e1, phrase) == UniqueViolationMessage(e2, phrase)
    ensures e1 == e2
  {
    var m := UniqueViolationMessage(e1, phrase);
    assert |e1| == |e2|;
    assert m[12..12 + |e1|] == e1;
    assert UniqueViolationMessage(e2, phrase)[12..12 + |e2|] == e2;
  }

  /** For 23505 the filter's text names `registro`, so it differs from the
      translator's text for any other entity (the repositories pass
      `cliente`). */
  lemma UniqueViolationMessagesDiffer(fields: PgFields, context: Option<string>, s: Sanitizer)
    requires EntityName(context) != " registro"
    ensures GetMessageFromPostgresError(UNIQUE_VIOLATION, fields, s) != TranslateCode(UNIQUE_VIOLATION, fields, EntityName(context), s).message
  {
    var phrase := SanitizeConstraint(s, fields.constraint);
    if UniqueViolationMessage(" registro", phrase) == UniqueViolationMessage(EntityName(context), phrase) {
      UniqueViolationNamesEntity(" registro", EntityName(context), phrase);
    }
  }

  /** Translating a PostgreSQL error first and filtering the result gives
      the same status as filtering it directly. */
  lemma TranslateThenFilterKeepsStatus(message: string, fields: PgFields, context: Option<string>, s: Sanitizer)
    requires IsPostgresError(Error(message, fields))
    ensures Respond(HandleDatabaseError(Error(message, fields), context, s), s).status == Respond(Error(message, fields), s).status
  {
    StatusTablesAgree(fields.code.value, fields, EntityName(context), s);
  }

  /** A translated exception reaches the client with its status and its
      message unchanged. */
  lemma TranslatedReachesClient(error: Thrown, context: Option<string>, s: Sanitizer)
    requires !IsPassedThrough(error)
    ensures var t := HandleDatabaseError(error, context, s);
      Respond(t, s) == Reply(StatusOf(t.cls), Some(t.message))
  {
  }

  /** A generic `Error` always gets status 500, and the generic message
      whenever detailed errors are off; otherwise its trimmed message. */
  lemma GenericErrorReply(message: string, fields: PgFields, s: Sanitizer)
    requires !IsPostgresError(Error(message, fields))
    ensures Respond(Error(message, fields), s).status == INTERNAL_SERVER_ERROR
    ensures !ShouldShowDetailedErrors(s) ==> Respond(Error(message, fields), s).message == Some(INTERNAL_ERROR_MESSAGE)
    ensures ShouldShowDetailedErrors(s) ==> Respond(Error(message, fields), s).message == Some(Trim(message))
  {
  }

  /** With sanitization on, a value that is not an `HttpException` is
      answered with an approved message only. */
  lemma NoLeakWhenSanitizing(exception: Thrown, s: Sanitizer)
    requires Active(s) && !exception.Http?
    ensures Respond(exception, s).message.Some? && Respond(exception, s).message.value in FilterApprovedMessages()
  {
  }

  /** At bootstrap (src/main.ts) the global filter is built before anything
      else asks for the sanitizer, so the instance is built without a
      configuration: sanitization stays off for the life of the process,
      and a generic `Error` reaches the client with its own trimmed message,
      whatever configuration a request presents. */
  method BootstrapFixesDevelopmentMode(registry: SanitizerRegistry, requestConfig: Config, exception: Thrown)
    returns (filter: HttpExceptionFilter, status: int, message: Option<string>)
    requires registry.instance == None
    modifies registry
    ensures filter.registry == registry && filter.sanitizer == NewSanitizer(None) && !Active(filter.sanitizer)
    ensures registry.instance == Some(NewSanitizer(None))
    ensures Reply(status, message) == Respond(exception, NewSanitizer(None))
    ensures exception.Error? && !IsPostgresError(exception) ==> message == Some(Trim(exception.message))
  {
    filter := new HttpExceptionFilter(registry);
    status, message := filter.Catch(exception, Some(requestConfig));
  }

  /** A request that brings its own configuration does not change the
      filter's sanitizer: the first instance built stays in use. */
  method CatchWithRequestConfig(filter: HttpExceptionFilter, exception: Thrown, requestConfig: Config)
    returns (status: int, message: Option<string>)
    requires filter.Valid()
    modifies filter, filter.registry
    ensures Reply(status, message) == Respond(exception, old(filter.sanitizer))
  {
    status, message := filter.Catch(exception, Some(requestConfig));
  }
}
