/** The exceptions the file services throw, as values. */
module Errors {

  /** Why an `ArgumentException` was thrown. */
  datatype ArgumentProblem =
    | WrongFileModel      // the file model is not of the provider's own kind
    | NonPositivePaging   // page number or page size is not greater than zero

  datatype Error =
    | ArgumentNull(param: string)            // ArgumentNullException
    | InvalidArgument(problem: ArgumentProblem)  // ArgumentException
    | InvalidOperation                       // the object is not in its container or bucket
    | BackendError(status: int)              // a failure reported by the storage service
}
