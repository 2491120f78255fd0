/** Failure-carrying results and the error conditions the library raises.

    Ruby raises exceptions; here every operation that can raise returns a
    `Result` (a value or an error) or an `Outcome` (nothing or an error), and
    the error names the condition that made the Ruby code raise. */
module Wrappers {

  datatype Option<+T> = None | Some(value: T)

  /** The conditions under which the modelled code raises. The Ruby exception
      class is given for each; most are `ArgumentError`. */
  datatype Error =
    | BufferFull              // ArgumentError: push on a full buffer that may not override
    | BufferEmpty             // ArgumentError: pop/newest/oldest on an empty buffer
    | IndexTooLarge           // ArgumentError: relative_index >= fill_count
    | NotImplemented          // NotImplementedError: a stub method
    | DelayOverMax            // ArgumentError: delay_seconds > max_delay_seconds
    | InvalidLimitType        // ArgumentError: limit type not in Limit::TYPES
    | InvalidLimitValues      // ArgumentError: limit values do not fit the limit type
    | InvalidMessageType      // hash_make validator: message type not in Message::TYPES
    | InvalidSubtype          // hash_make validator or handler: subtype neither GET nor SET
    | NotAControlMessage      // ArgumentError: handler given a plain Message
    | MessageTypeMismatch     // ArgumentError: message type not supported on a port
    | NilData                 // NoMethodError: a SET handler compared nil data
    | QueueUnderflow          // ArgumentError: more values requested than are queued
    | WrongPortKind           // ArgumentError: a link argument of the wrong port class
    | AlreadyLinked           // ArgumentError: input port already has a producer
    | NotLinked               // ArgumentError: port is not among the links
    | ContinuityMismatch      // ArgumentError: continuous flags of two ports differ
    | WrongArity              // ArgumentError: algorithm lambda called with the wrong argument count
    | OutsideUnitInterval     // ArgumentError: interpolation x not between 0.0 and 1.0
    | TooFewSamples           // NoMethodError: fewer than two samples leave diffs.first nil
    | UndefinedMethod         // NoMethodError: a call to a method the receiver's class does not define

  datatype Result<+T> = Ok(value: T) | Err(error: Error) {
    predicate IsFailure() { Err? }
    function PropagateFailure<U>(): Result<U>
      requires Err?
    {
      Err(error)
    }
    function Extract(): T
      requires Ok?
    {
      value
    }
  }

  datatype Outcome = Pass | Fail(error: Error) {
    predicate IsFailure() { Fail? }
    function PropagateFailure(): Outcome
      requires Fail?
    {
      this
    }
  }
}
