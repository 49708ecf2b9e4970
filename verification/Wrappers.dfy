/** Failure and absence wrappers shared by every module. */
module Wrappers {
  datatype Option<+T> = None | Some(value: T) {
    function GetOr(default: T): T {
      if Some? then value else default
    }
  }

  /** The sources' `Result`; error messages carry no information the model needs. */
  datatype Result<+T> = Ok(value: T) | Err
}
