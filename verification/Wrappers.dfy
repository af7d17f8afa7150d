/** Result types shared by every module. */
module Wrappers {

  datatype Option<+T> = None | Some(value: T)

  /** The error kinds of the server (pajamax/src/error.rs), without their texts. */
  datatype Error =
    | InvalidHttp2
    | InvalidHpack
    | InvalidHuffman
    | UnknownMethod
    | NoPathSet
    | IoFail
    | ChannelClosed

  /** What a call comes to: a value, a returned error, or a panic. */
  datatype Result<+T> = Ok(value: T) | Err(error: Error) | Panic {

    predicate IsFailure() {
      !Ok?
    }

    function PropagateFailure<U>(): Result<U>
      requires IsFailure()
    {
      if Err? then Result<U>.Err(error) else Result<U>.Panic
    }

    function Extract(): T
      requires Ok?
    {
      value
    }
  }
}
