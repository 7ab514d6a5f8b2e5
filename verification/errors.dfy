/** Failure-carrying values shared by every module of the ENVI header model. */
module Errors {

  /** A value that may be absent (Python's `None`). */
  datatype Option<+T> = None | Some(value: T)

  /** The exceptions `EnviHdr` raises or lets escape. */
  datatype Error =
    | MetaDataError          // `EnviHdr`'s own exception: IMD keys missing, or no metadata at all
    | KeyError(key: string)  // a sensor table has no entry for `key`
    | IndexError             // a list indexed past its end
    | NotImplementedError    // the XML metadata reader is a stub
    | NoImageFiles           // the ValueError raised when the image port holds no raster

  /** Either a value or the exception that prevented it; usable with `:-`. */
  datatype Result<+T> = Ok(value: T) | Err(error: Error) {

    predicate IsFailure() {
      Err?
    }

    function PropagateFailure<U>(): Result<U>
      requires Err?
    {
      Err(error)
    }

    function Extract(): T
      requires Ok?
    {
      value
    }
  }
}
