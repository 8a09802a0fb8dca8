/** Shared vocabulary of the booking backend: document ids, optional values,
    and the error envelope every route handler answers with. */
module Common {

  /** A document id (a Mongo ObjectId, abstracted to a number). */
  type Id = nat

  datatype Option<+T> = None | Some(value: T)

  /** Why a handler answered 400. Each constructor is one `message` of the source. */
  datatype BadRequestReason =
    | InvalidInput              // express-validator rejected the body
    | NotEnoughUnits            // "Not enough seats/rooms available"
    | UnitNotFound(number: string)
    | UnitBooked(number: string)
    | InvalidDates              // "Check-out date must be after check-in date"
    | PaymentDeclined
    | AlreadyCancelled
    | DuplicateFlightNumber     // Mongo duplicate-key error 11000 on flightNumber
    | CannotDeleteAdmin
    | DuplicateUnits            // only raised by the corrected booking handlers
    | BookingCancelled          // only raised by the corrected confirm handler

  /** The error side of a JSON envelope `{success: false, ...}`. `Internal` is what
      the application-wide error handler answers for an exception. */
  datatype ApiError =
    | BadRequest(reason: BadRequestReason)
    | Unauthorized
    | Forbidden
    | NotFound
    | Internal
  {
    function Status(): int {
      match this
      case BadRequest(_) => 400
      case Unauthorized => 401
      case Forbidden => 403
      case NotFound => 404
      case Internal => 500
    }
  }

  /** The outcome of a handler: the new state (and response data) or an error. */
  datatype Result<+T> = Ok(value: T) | Err(error: ApiError) {
    predicate IsFailure() {
      Err?
    }

    function PropagateFailure<U>(): Result<U>
      requires Err?
    {
      Err(error)
    }

    function Extract(): T
      requires Ok?
    {
      value
    }
  }

  /** The `{total, available}` pair a Flight keeps per seat class and a Hotel per room type. */
  datatype Counter = Counter(total: int, available: int)

  /** `Math.max(a, b)` on money amounts. */
  function Max(a: real, b: real): real {
    if a >= b then a else b
  }

  /** `Math.min(a, b)` on money amounts. */
  function Min(a: real, b: real): real {
    if a <= b then a else b
  }

  /** `Math.max(a, b)` on counts. */
  function MaxInt(a: int, b: int): int {
    if a >= b then a else b
  }

  /** True when no value occurs twice in `xs`. */
  predicate Distinct<T(==)>(xs: seq<T>) {
    forall i, j | 0 <= i < j < |xs| :: xs[i] != xs[j]
  }
}
