/** Results of the operations that can fail. The program reports each
    failure by throwing a runtime error with a fixed message; here each
    message is a constructor. */
module Outcomes {

  /** The failures of the modelled operations, one per error message. */
  datatype Failure =
    | UnfitResolution   // "Number is unfit for grid creation"
    | UserAborted       // "User aborted execution"
    | NoSuitableMemory  // "No suitable memory found"

  datatype Outcome<T> = Ok(value: T) | Fail(failure: Failure)
}
