/** The two result shapes the modules share. */
module Wrappers {
  datatype Option<+T> = None | Some(value: T) {
    function GetOr(default: T): T {
      if None? then default else value
    }
  }

  /** An error carries no payload here: every caller treats all errors alike. */
  datatype Result<+T> = Ok(value: T) | Err
}
