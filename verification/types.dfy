/** Option, Result and the exceptions shared by every module. */
module Types {

  /** A value that may be absent: Python's `None` versus a present value. */
  datatype Option<+T> = None | Some(value: T)

  /** The Python exceptions that can escape the bot's decision logic. */
  datatype Fault =
    | TypeError       // re.search applied to a missing (None) subject
    | ValueError      // a content type without '/' unpacked into two parts
    | TransportError  // the mail service rejected a request

  /** Either a normal return value or the exception that propagated instead. */
  datatype Result<+T> = Success(value: T) | Failure(fault: Fault)
}
