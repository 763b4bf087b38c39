/** Option and Result, the two shapes the register layer returns. */
module Wrappers {

  datatype Option<+T> = None | Some(value: T)

  /** The reasons a register operation reports failure to its caller. */
  datatype Error =
    | ReadOnly(name: char)            // write or push to `#`, `.` or `%`
    | ClipboardMismatch(name: char)   // push to `+`/`*` while the clipboard no longer holds the cached batch
    | ClipboardUnavailable            // the clipboard backend refused a get or a set

  datatype Result<+T> = Ok(value: T) | Err(error: Error)
}
