/** Failure-carrying datatypes shared by the whole model. */
module Wrappers {

  /** A value that may be absent (Python's `None`). */
  datatype Option<+T> = None | Some(value: T) {
    function GetOr(default: T): T {
      match this
      case Some(v) => v
      case None => default
    }
  }

  /** The exceptions the modelled code raises, by Python class and cause. */
  datatype Error =
    | ValueError(cause: Cause)
    | RuntimeError(cause: Cause)
    | FileNotFound(cause: Cause)
    | IndexError
    | AttributeError
    | KeyError
    | TypeError
    | ZeroDivision
    | GenericException(cause: Cause)

  /** Why an exception was raised; one constructor per `raise` site of interest. */
  datatype Cause =
    | UnsupportedModelType
    | NoModelResponse
    | ConstructorFailed
    | UnsupportedMode
    | NoSeedInstruction
    | NoInstructionGenerated
    | MissingInstruction
    | MissingOutput
    | NotAJsonArray
    | MissingPath
    | NoJsonFiles
    | NotFileOrDirectory
    | NoData
    | EmptyDataset
    | NegativeSampleCount
    | UnreadableFile
    | NoJsonFilesInFolder

  /** A Python call that either returns a value or raises. */
  datatype Result<+R> = Ok(value: R) | Err(error: Error) {
    predicate IsFailure() { Err? }

    function PropagateFailure<U>(): Result<U>
      requires Err?
    {
      Err(error)
    }

    function Extract(): R
      requires Ok?
    {
      value
    }
  }
}
