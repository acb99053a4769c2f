/** Option and Result values standing in for Java's null and thrown exceptions. */
module Wrappers {

  /** A Java reference that may be null. */
  datatype Option<+T> = None | Some(value: T)

  /** The normal return of a Java call, or the exception it throws. */
  datatype Result<+T, +E> = Ok(value: T) | Err(error: E)

  /** The unchecked exceptions the modelled code lets escape to its caller. */
  datatype JavaException =
    | NumberFormatException   // Integer.parseInt on text that is not a 32-bit integer
    | DateTimeParseException  // LocalDate.parse on text that is not an ISO local date
    | DateTimeException       // LocalDate.minusDays stepping below LocalDate.MIN
    | NullPointerException    // a JSON field the client dereferences without checking
}
