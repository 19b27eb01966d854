/** Failure-carrying wrappers shared by the whole model.

    The service code reports every failure by throwing: a ValidationException
    carrying an HTTP status, a bare RuntimeException from `orElseThrow`, an
    UnknownStateException, or a JVM exception (null dereference, division by
    zero, a single-result query that found several rows). Here each of them is
    one variant of `Failure`, and an operation that can throw returns a
    `Result` or an `Outcome`. */
module Base {

  /** Java's nullable reference: `None` is `null`. */
  datatype Option<+T> = None | Some(value: T)

  /** The kinds of record a lookup can miss. */
  datatype Entity = UserEntity | ItemEntity | BookingEntity | RequestEntity

  /** The HTTP status a failure is reported with. */
  datatype HttpStatus = HttpBadRequest | HttpNotFound | HttpConflict | HttpInternalError

  datatype Failure =
    | NotFound(entity: Entity)        // ValidationException(NOT_FOUND, "... not found")
    | Missing(entity: Entity)         // RuntimeException thrown by orElseThrow
    | UserIdMissing                   // ValidationException(NOT_FOUND, "user id not given")
    | EndBeforeStart                  // ValidationException(BAD_REQUEST)
    | EndBeforeNow                    // ValidationException(BAD_REQUEST)
    | StartBeforeNow                  // ValidationException(BAD_REQUEST)
    | ItemUnavailable                 // ValidationException(BAD_REQUEST)
    | OwnerBooksOwnItem               // ValidationException(NOT_FOUND)
    | NotItemOwner                    // ValidationException(NOT_FOUND)
    | AlreadyApproved                 // ValidationException(BAD_REQUEST)
    | AlreadyRejected                 // ValidationException(BAD_REQUEST)
    | NotOwnerOrBooker                // ValidationException(NOT_FOUND)
    | UnknownState(message: string)   // UnknownStateException
    | EmptyComment                    // ValidationException(BAD_REQUEST)
    | NotABooker                      // ValidationException(BAD_REQUEST)
    | NameMissing                     // ValidationException(BAD_REQUEST)
    | DescriptionMissing              // ValidationException(BAD_REQUEST)
    | InvalidEmail                    // ValidationException(BAD_REQUEST)
    | EmailTaken                      // ValidationException(CONFLICT)
    | NegativeFrom                    // ValidationException(BAD_REQUEST)
    | NegativeSize                    // ValidationException(BAD_REQUEST)
    | ZeroFromAndSize                 // ValidationException(BAD_REQUEST)
    | DivisionByZero                  // ArithmeticException
    | NullDereference                 // a null dereference in Java
    | NonUniqueResult                 // IncorrectResultSizeDataAccessException

  /** The status each failure is reported with. An UnknownStateException is
      answered with BAD_REQUEST by the server's ErrorHandler; the other
      exceptions that are not ValidationExceptions surface as internal server errors. */
  function StatusOf(f: Failure): HttpStatus
  {
    match f
    case NotFound(_) | UserIdMissing | OwnerBooksOwnItem | NotItemOwner | NotOwnerOrBooker => HttpNotFound
    case EndBeforeStart | EndBeforeNow | StartBeforeNow | ItemUnavailable | AlreadyApproved | AlreadyRejected
      | EmptyComment | NotABooker | NameMissing | DescriptionMissing | InvalidEmail
      | NegativeFrom | NegativeSize | ZeroFromAndSize | UnknownState(_) => HttpBadRequest
    case EmailTaken => HttpConflict
    case Missing(_) | DivisionByZero | NullDereference | NonUniqueResult => HttpInternalError
  }

  /** The value an operation returns, or the exception it throws. */
  datatype Result<+T> = Ok(value: T) | Err(error: Failure)

  /** The outcome of a `void` check that either returns or throws. */
  datatype Outcome = Pass | Fail(error: Failure)
}
