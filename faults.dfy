/** What a Pair-Setup step can store in the session's error field or throw to its caller. */
module Faults {
  import opened Wire

  datatype Fault =
    | AccessoryError(code: Bytes)   // the Error entry of a response, stored as received
    | ProofCheckFailed              // the SRP client rejected the accessory's proof
    | MissingSalt                   // M2 without a Salt field
    | MissingAccessoryPublicKey     // M2 without a PublicKey field
    | TypeError                     // a property or method of `undefined` was used
    | RangeError                    // a buffer of negative size was requested
    | UndefinedArgument             // a foreign primitive was handed `undefined`

  /** How a call ends: it returns a value or it throws. */
  datatype Outcome<+T> = Returned(value: T) | Threw(fault: Fault)
}
