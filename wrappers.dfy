// Option and Result, and the .NET exceptions the modelled code can raise.

module Wrappers {

  datatype Option<+T> = None | Some(value: T)

  /** The exceptions that the modelled operations can throw, by .NET type. */
  datatype Fault =
    | ArgumentNull       // ArgumentNullException: a null dictionary key
    | InvalidCast        // InvalidCastException: an unboxing cast to the wrong type
    | KeyNotFound        // KeyNotFoundException: a dictionary lookup of a missing key
    | Format             // FormatException: a date pattern DateTime.ToString refuses
    | Overflow           // OverflowException: a narrowing conversion out of range
    | IndexOutOfRange    // ArgumentOutOfRangeException: a list index past the end
    | Foreign            // whatever a framework conversion outside the model throws

  datatype Result<+T> = Ok(value: T) | Err(fault: Fault)
}
