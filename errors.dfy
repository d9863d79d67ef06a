/** The exceptions that can reach the request handler: the three custom
    classes of chatbot_app/utils.py and any other exception, each with the
    text `str(e)` gives. */
module Errors {

  datatype Exc =
    | DatabaseError(msg: string)
    | APIConfigError(msg: string)
    | QueryValidationError(msg: string)
    | OtherError(msg: string)

  /** A stage either returns a value or raises. */
  datatype Outcome<T> = Ok(value: T) | Raised(exc: Exc)
}
