/** Success/failure values that stand in for the exceptions the commands raise or pass on. */
module Outcomes {

  /** An optional value: the model of a reference that may be null. */
  datatype Option<+T> = None | Some(value: T)

  /** The exceptions the modelled code raises itself or lets through from its collaborators. */
  datatype Error =
    | InvalidOperation(message: string)  // System.InvalidOperationException
    | TargetMismatch                     // a property read on an object of another runtime type
    | IndexOutOfRange(index: int)        // a column or array index outside its bounds
    | Conversion(detail: string)         // raised by the value-conversion collaborator
    | Backend(detail: string)            // raised by the database driver, passed on verbatim

  /** The outcome of an operation that either produces a value or throws. */
  datatype Result<+T> = Success(value: T) | Failure(error: Error)
}
