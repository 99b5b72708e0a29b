/** Option and Result, for the null returns and the thrown errors of the service. */
module Wrappers {

  datatype Option<+T> = None | Some(value: T)

  datatype Result<+T, +E> = Success(value: T) | Failure(error: E)

  /** The errors the modelled code throws or catches. */
  datatype Error =
    | TypeError            // a property read on null/undefined, or a method missing on a value
    | NoTree               // "No tree found in response"
    | HttpError            // a failed call to an external service
    | UpsertRejected       // the vector store refused a write
}
