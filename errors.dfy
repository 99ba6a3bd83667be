/** `src/errors.rs`: the error kinds of the Rust crate. */
module Errors {

  /** `LsiError`. `FailedDisplay` carries no text: its one producer passes
      none. `IoError` wraps an operating-system error, which is not modelled. */
  datatype LsiError =
    | DescriptionNotFound
    | PathNotFound
    | FailedDisplay
    | FailedLaunchEditor(message: string)
    | InvalidPath
    | FileOperationFailed(message: string)
    | PermissionDenied(message: string)
    | IoError
}
