/** The exceptions the schematic core can raise, as values. */
module Failures {

  /** Every failure is an IllegalArgumentException in the source; the message tells them apart. */
  datatype Error =
    | WorldNotFound(worldName: string)        // "World not found: " + worldName
    | InvalidFlipDirection(direction: string) // "Invalid flip direction: " + direction

  /** The value of a call that either returns normally or throws. */
  datatype Result<T> = Ok(value: T) | Fail(error: Error)

  /** The outcome of a call that returns nothing or throws. */
  datatype Outcome = Done | Failed(error: Error)
}
