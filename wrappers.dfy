/** Option and Result values, and the Python exceptions the visualization
    helpers can raise, as plain values. */
module Wrappers {

  datatype Option<+T> = None | Some(value: T)

  /** The exceptions that reach the caller of the helpers in visual.py. */
  datatype Error =
    | ValueError(message: string)     // raised by save_gan itself
    | IndexError                      // a batch or a frame list indexed past its end
    | FileNotFoundError(path: string) // os.listdir on a folder that does not exist

  datatype Result<+T> = Ok(value: T) | Err(error: Error)
}
