/** Exceptions the script can raise, and the result and option types used to model them. */
module Errors {

  /**
   * The exceptions that can end an operation of the script: Python's
   * built-in classes, and selenium's TimeoutException.
   */
  datatype Error =
    | ValueError        // bad date text, start after end, range() with step 0
    | IndexError        // date_ranges[0] on an empty list, screenshots[0] with no capture
    | TypeError         // int(None) when the result count is missing
    | TimeoutException  // WebDriverWait.until gave up waiting for <body> (selenium)
    | FileNotFoundError // os.remove of a manifest that was never written

  datatype Result<+T> = Ok(value: T) | Err(error: Error)

  datatype Option<+T> = None | Some(value: T)
}
