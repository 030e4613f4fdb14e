/** Outcomes shared by the services. */
module Common {

  datatype Option<+T> = None | Some(value: T)

  /** The error codes thrown by the services that the model keeps apart. */
  datatype Error =
    | InvalidRooms
    | InvalidDateRange
    | RoomsNotAvailable
    | HoldNotFound
    | Forbidden
    | HoldNotActive
    | HoldExpired
    | KeyRequired
    | KeyReused
    | RequestInProgress
    | NoActiveHold
    | HoldHasNoRooms
    | InvalidHoldAmount
    | PaymentCreationFailed
    | BookingNotFound
    | TransactionNotFound
    | AlreadyCancelled
    | CannotCancelCompleted
    | NotBalanced

  datatype Result<+T> = Ok(value: T) | Err(error: Error)
}
