/** The values that can be thrown through the error-translation layer: the
    framework's HTTP exceptions (with `DatabaseException` among them), other
    JavaScript `Error` objects such as the PostgreSQL driver's errors, and
    anything else a `throw` may carry. `null` and `undefined` are not
    modelled: reading `.code` on them raises a `TypeError`. */
module Exceptions {
  import opened Wrappers

  const BAD_REQUEST := 400
  const FORBIDDEN := 403
  const NOT_FOUND := 404
  const CONFLICT := 409
  const INTERNAL_SERVER_ERROR := 500

  /** The class of an HTTP exception. `Database` is `DatabaseException`, a
      subclass of `HttpException` built with status 500; `Custom` is any
      other `HttpException` with the status it was built with. */
  datatype HttpClass =
    | BadRequest
    | Forbidden
    | NotFound
    | Conflict
    | InternalServerError
    | Database
    | Custom(status: int)

  /** `getStatus()` of an exception of the given class. */
  function StatusOf(cls: HttpClass): int {
    match cls
    case BadRequest => BAD_REQUEST
    case Forbidden => FORBIDDEN
    case NotFound => NOT_FOUND
    case Conflict => CONFLICT
    case InternalServerError => INTERNAL_SERVER_ERROR
    case Database => INTERNAL_SERVER_ERROR
    case Custom(status) => status
  }

  /** The `message` entry of an exception's response object: a string or a
      list of strings (a validation failure lists one per issue). */
  datatype MessageField = Text(text: string) | List(items: seq<string>)

  /** `getResponse()`: a bare string, or an object that may or may not carry
      a `message` key (`None` also stands for a `null` response). */
  datatype ExceptionResponse = Plain(text: string) | Body(message: Option<MessageField>)

  /** The PostgreSQL fields the layer reads off an error object, when present. */
  datatype PgFields = PgFields(code: Option<string>, constraint: Option<string>, column: Option<string>)

  const NoPgFields := PgFields(None, None, None)

  /** A thrown value. `Http` is an instance of `HttpException` (and so also
      of `Error`); `Error` is any other `Error` instance; `NonError` is
      anything else, which may still carry a `code` property. */
  datatype Thrown =
    | Http(cls: HttpClass, response: ExceptionResponse, message: string, fields: PgFields)
    | Error(message: string, fields: PgFields)
    | NonError(fields: PgFields)

  /** `x instanceof Error`. */
  predicate IsErrorInstance(t: Thrown) {
    t.Http? || t.Error?
  }

  /** `x instanceof DatabaseException`. */
  predicate IsDatabaseException(t: Thrown) {
    t.Http? && t.cls == Database
  }

  /** `new XException(message)` for one of the framework's built-in classes:
      the response object carries the message, and so does `.message`. */
  function NewHttpException(cls: HttpClass, message: string): (t: Thrown)
    ensures IsErrorInstance(t) && t.message == message
  {
    Http(cls, Body(Some(Text(message))), message, NoPgFields)
  }

  /** `new DatabaseException(message, code, constraint, detail)`: the
      response object holds the message and the PostgreSQL fields, and the
      status is always 500 (database.exception.ts). */
  function NewDatabaseException(message: string, code: Option<string>, constraint: Option<string>): (t: Thrown)
    ensures IsDatabaseException(t) && StatusOf(t.cls) == INTERNAL_SERVER_ERROR
    ensures t.response == Body(Some(Text(message))) && t.fields.code == code
  {
    Http(Database, Body(Some(Text(message))), message, PgFields(code, constraint, None))
  }

  /** How a call ends: it returns a value or it throws. */
  datatype Outcome<+T> = Returned(value: T) | Threw(exception: Thrown)
}
