/** Option and Result, the failure-carrying values used throughout the model. */
module Wrappers {

  /** A C string or slot that may be NULL: `None` stands for NULL. */
  datatype Option<+T> = None | Some(value: T)

  /** The outcome of a step that can end the whole run with a fatal error. */
  datatype Result<+T, +E> = Success(value: T) | Failure(error: E)
}

/** The fatal error codes of checkFile (main.c:30-43) that the modelled core can raise. */
module Faults {

  datatype Fault =
    | OpenFileFailed      // ERR_OPEN_FILE: the batch file cannot be opened
    | FgetsFailed         // ERR_FGETS: the batch file holds fewer lines than were counted
    | OpenDirFailed       // ERR_OPEN_DIR: the directory cannot be opened
    | CountLinesFailed    // ERR_COUNT_LINES: the batch file holds no newline (as written) or is empty (corrected count)
    | MissingLine(pos: nat) // no detector line for file `pos` (the source reads a NULL line)
}
