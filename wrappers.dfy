/** Option and exception-outcome types shared by the model. */
module Wrappers {

  datatype Option<+T> = None | Some(value: T)

  /** The exceptions the modelled code raises and catches, by kind. */
  datatype Exn =
    | FormatError     // Guid.Parse on a malformed subkey name
    | IOError         // Directory.GetFiles failing on an inaccessible directory
    | SecurityError   // opening a registry key without permission

  /** A call that either returns a value or throws. */
  datatype Outcome<+T> = Ok(value: T) | Throw(error: Exn)
}
