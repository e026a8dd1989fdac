/** Option and Result wrappers, and the Java exceptions the modelled code raises. */
module Wrappers {

  datatype Option<+T> = None | Some(value: T)

  /** The exceptions the core throws; `ArgumentOutOfRange` is the library's
      subclass of IllegalArgumentException. */
  datatype Exception =
    | IllegalArgument        // java.lang.IllegalArgumentException (parse and format errors)
    | ArgumentOutOfRange     // colorpad.core.ArgumentOutOfRangeException (range errors)
    | NullPointer            // java.lang.NullPointerException
    | ClassCast              // a converter applied to a value of the wrong class
    | IndexOutOfBounds       // StringIndexOutOfBoundsException
    | IoError                // an I/O failure reported while reading a file
    | ProgramExit            // System.exit called by the command-line front end

  datatype Result<+T> = Ok(value: T) | Err(error: Exception)

  /** True for both IllegalArgumentException and its subclass ArgumentOutOfRangeException. */
  predicate IsIllegalArgument(e: Exception) {
    e == IllegalArgument || e == ArgumentOutOfRange
  }

  /** A Java reference to a String that may be null. */
  type JString = Option<string>
}
